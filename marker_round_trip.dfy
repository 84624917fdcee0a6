/**
 * The marker written by the swc plugin (packages/swc-plugin/src/lib.rs:158)
 * read back by the marker expression of packages/constants/index.ts, as the
 * bundler integrations do: the first match's capture, trimmed.
 */
module MarkerRoundTrip {
  import opened Collections
  import opened JsText
  import opened SwcAst
  import opened SwcCollector
  import opened Constants

  /** The plugin's default tag is the tag the expression looks for. */
  lemma TagsAgree()
    ensures DEFAULT_TAG == ATOMIC_TAG
  {
  }

  /** What a consumer reads from a text: the trimmed capture of the first match, if any. */
  function Extract(text: string): Option<string> {
    match Exec(text, 0)
    case Some(m) => Some(Trim(m.1))
    case None => None
  }

  // A consumer reads something exactly when the text holds a marker shape
  // somewhere, and then reads the trimmed text between `TAG:` and `*/` of
  // the leftmost one.
  lemma ExtractReads(text: string)
    ensures Extract(text).Some? <==> exists i: nat, w: nat, q: nat :: MatchShape(text, i, w, q)
    ensures Extract(text).Some? ==> exists i: nat, w: nat, q: nat ::
      && MatchShape(text, i, w, q)
      && Extract(text).value == Trim(text[w + |Head()|..q])
      && forall j: nat, w2: nat, q2: nat :: j < i ==> !MatchShape(text, j, w2, q2)
  {
    ExecLeftmostShape(text);
    if Exec(text, 0).Some? {
      var i := Exec(text, 0).value.0;
      var w: nat, q: nat :| MatchShape(text, i, w, q) && Exec(text, 0).value.1 == text[w + |Head()|..q];
      assert Extract(text).value == Trim(text[w + |Head()|..q]);
    }
  }

  // The layout of a marker: `/* `, then `TAG:`, the classes and a space, then `*/`.
  lemma MarkerLayout(c: string)
    ensures var m := MarkerText(DEFAULT_TAG, c);
      && |m| == 3 + |Head()| + |c| + 3
      && m[0] == '/' && m[1] == '*' && m[2] == ' '
      && m[3..3 + |Head()|] == Head()
      && m[3 + |Head()|..|m| - 2] == c + " "
      && m[|m| - 2] == '*' && m[|m| - 1] == '/'
  {
    var m := MarkerText(DEFAULT_TAG, c);
    assert m == "/* " + Head() + (c + " ") + "*/";
  }

  /** A marker has the accepted shape, with the classes and the space before the end as capture. */
  lemma MarkerShape(c: string)
    requires c != [] && '*' !in c
    ensures var h := 3 + |Head()|;
      && MatchShape(MarkerText(DEFAULT_TAG, c), 0, 3, h + |c| + 1)
      && MarkerText(DEFAULT_TAG, c)[h..h + |c| + 1] == c + " "
  {
    var m := MarkerText(DEFAULT_TAG, c);
    var h := 3 + |Head()|;
    MarkerLayout(c);
    forall k | h <= k < h + |c| + 1 ensures m[k] != '*' {
      assert m[k] == m[h..|m| - 2][k - h] == (c + " ")[k - h];
    }
  }

  /** A stretch of text keeps its characters when other text is put around it. */
  lemma SliceInContext(pre: string, m: string, post: string, a: nat, b: nat)
    requires a <= b <= |m|
    ensures (pre + m + post)[|pre| + a..|pre| + b] == m[a..b]
  {
    var s := pre + m + post;
    assert forall k :: a <= k < b ==> s[|pre| + k] == m[k];
  }

  /** Whether text has the accepted shape depends only on that text, not on what surrounds it. */
  lemma ShapeInContext(pre: string, m: string, post: string, w: nat, q: nat)
    requires MatchShape(m, 0, w, q)
    ensures MatchShape(pre + m + post, |pre|, |pre| + w, |pre| + q)
  {
    var s := pre + m + post;
    var i := |pre|;
    assert forall k :: 0 <= k < |m| ==> s[i + k] == m[k];
    SliceInContext(pre, m, post, w, w + |Head()|);
  }

  /** Text of the accepted shape is matched where it stands, whatever surrounds it, with the same capture. */
  lemma ShapeMatchesIn(pre: string, m: string, post: string, w: nat, q: nat)
    requires MatchShape(m, 0, w, q)
    ensures MatchAt(pre + m + post, |pre|) == Some(m[w + |Head()|..q])
  {
    ShapeInContext(pre, m, post, w, q);
    SliceInContext(pre, m, post, w + |Head()|, q);
    MatchAtShifted(pre + m + post, |pre|, w, q, m[w + |Head()|..q]);
  }

  /** A shape found at an offset is matched there with the capture it holds. */
  lemma MatchAtShifted(s: string, i: nat, w: nat, q: nat, c: string)
    requires MatchShape(s, i, i + w, i + q)
    requires s[i + w + |Head()|..i + q] == c
    ensures MatchAt(s, i) == Some(c)
  {
    MatchAtComplete(s, i, i + w, i + q);
  }

  // A marker with the default tag matches where it stands, whatever
  // surrounds it; the space the plugin writes before `*/` stays in the
  // capture.
  lemma MarkerMatchesIn(pre: string, c: string, post: string)
    requires c != [] && '*' !in c
    ensures var s := pre + MarkerText(DEFAULT_TAG, c) + post;
      MatchAt(s, |pre|) == Some(c + " ")
  {
    MarkerShape(c);
    ShapeMatchesIn(pre, MarkerText(DEFAULT_TAG, c), post, 3, 3 + |Head()| + |c| + 1);
  }

  /** A marker on its own is found at its start. */
  lemma MarkerFound(c: string)
    requires c != [] && '*' !in c
    ensures Exec(MarkerText(DEFAULT_TAG, c), 0) == Some((0, c + " "))
  {
    MarkerMatchesIn([], c, []);
    assert [] + MarkerText(DEFAULT_TAG, c) + [] == MarkerText(DEFAULT_TAG, c);
  }

  /**
   * The round trip: a class string with no `*` and no surrounding
   * whitespace is read back unchanged from the marker that carries it.
   */
  lemma RoundTrip(c: string)
    requires Clean(c) && '*' !in c
    ensures Extract(MarkerText(DEFAULT_TAG, c)) == Some(c)
  {
    MarkerFound(c);
    assert AllSpace(" ");
    TrimPadded([], c, " ");
    assert [] + c + " " == c + " ";
  }

  /**
   * The classes a call enumerates are read back, space-separated, from the
   * marker it records, provided each class is free of `*` and surrounding
   * whitespace.
   */
  lemma CallRoundTrip(call: CallExpr)
    requires CallClasses(call) != []
    requires forall i :: 0 <= i < |CallClasses(call)| ==> Clean(CallClasses(call)[i]) && '*' !in CallClasses(call)[i]
    ensures CallMarkers(DEFAULT_TAG, call) == [StrStmt(MarkerText(DEFAULT_TAG, Join(CallClasses(call), " ")))]
    ensures Extract(CallMarkers(DEFAULT_TAG, call)[0].value) == Some(Join(CallClasses(call), " "))
  {
    var classes := CallClasses(call);
    JoinClean(classes, " ");
    JoinAvoids(classes, " ", '*');
    RoundTrip(Join(classes, " "));
  }
}
