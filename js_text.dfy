/**
 * The pieces of JavaScript string behaviour the model relies on: the
 * whitespace class (what a regular expression's `\s` matches and what
 * `String.prototype.trim` removes), `trim` itself and `Array.prototype.join`.
 */
module JsText {

  /** ECMAScript WhiteSpace and LineTerminator code points. */
  predicate IsSpace(c: char) {
    || c == '\t' || c == '\n' || c == '\U{000B}' || c == '\U{000C}' || c == '\r'
    || c == ' ' || c == '\U{00A0}' || c == '\U{1680}'
    || ('\U{2000}' <= c <= '\U{200A}')
    || c == '\U{2028}' || c == '\U{2029}' || c == '\U{202F}' || c == '\U{205F}'
    || c == '\U{3000}' || c == '\U{FEFF}'
  }

  /** The first position at or after `i` that does not hold whitespace. */
  function SkipSpaces(s: string, i: nat): (j: nat)
    requires i <= |s|
    ensures i <= j <= |s|
    ensures forall k :: i <= k < j ==> IsSpace(s[k])
    ensures j == |s| || !IsSpace(s[j])
    decreases |s| - i
  {
    if i == |s| || !IsSpace(s[i]) then i else SkipSpaces(s, i + 1)
  }

  /** The position just after the last non-whitespace character before `j`. */
  function SkipSpacesBack(s: string, j: nat): (e: nat)
    requires j <= |s|
    ensures e <= j
    ensures forall k :: e <= k < j ==> IsSpace(s[k])
    ensures e == 0 || !IsSpace(s[e - 1])
  {
    if j == 0 || !IsSpace(s[j - 1]) then j else SkipSpacesBack(s, j - 1)
  }

  /** `String.prototype.trim`. */
  function Trim(s: string): (r: string)
    ensures |r| <= |s|
    ensures r == [] || (!IsSpace(r[0]) && !IsSpace(r[|r| - 1]))
  {
    var a := SkipSpaces(s, 0);
    var b := SkipSpacesBack(s, |s|);
    if a < b then s[a..b] else []
  }

  /** A non-empty string with no whitespace at either end. */
  predicate Clean(s: string) {
    s != [] && !IsSpace(s[0]) && !IsSpace(s[|s| - 1])
  }

  predicate AllSpace(s: string) {
    forall k :: 0 <= k < |s| ==> IsSpace(s[k])
  }

  /**
   * Trimming removes exactly the surrounding whitespace: a string with no
   * whitespace at either end, padded with whitespace, trims back to itself.
   */
  lemma TrimPadded(lead: string, c: string, trail: string)
    requires AllSpace(lead) && AllSpace(trail)
    requires c == [] || (!IsSpace(c[0]) && !IsSpace(c[|c| - 1]))
    ensures Trim(lead + c + trail) == c
  {
    var s := lead + c + trail;
    if c == [] {
      assert AllSpace(s) by {
        forall k | 0 <= k < |s| ensures IsSpace(s[k]) {
          if k < |lead| { assert s[k] == lead[k]; } else { assert s[k] == trail[k - |lead|]; }
        }
      }
      assert SkipSpaces(s, 0) == |s|;
    } else {
      var a, b := SkipSpaces(s, 0), SkipSpacesBack(s, |s|);
      assert s[|lead|] == c[0];
      assert s[|lead| + |c| - 1] == c[|c| - 1];
      assert forall k :: 0 <= k < |lead| ==> s[k] == lead[k];
      assert forall k :: |lead| + |c| <= k < |s| ==> s[k] == trail[k - |lead| - |c|];
      assert a == |lead|;
      assert b == |lead| + |c|;
      assert s[a..b] == c;
    }
  }

  lemma TrimIdentity(c: string)
    requires c == [] || (!IsSpace(c[0]) && !IsSpace(c[|c| - 1]))
    ensures Trim(c) == c
  {
    TrimPadded([], c, []);
    assert [] + c + [] == c;
  }

  /** `Array.prototype.join(sep)` over strings. */
  function Join(xs: seq<string>, sep: string): string {
    if |xs| == 0 then ""
    else if |xs| == 1 then xs[0]
    else xs[0] + sep + Join(xs[1..], sep)
  }

  /** A character that no element and not the separator holds is absent from the join. */
  lemma {:induction false} JoinAvoids(xs: seq<string>, sep: string, c: char)
    requires c !in sep
    requires forall x :: x in xs ==> c !in x
    ensures c !in Join(xs, sep)
  {
    if |xs| > 1 {
      JoinAvoids(xs[1..], sep, c);
    }
  }

  /** The join begins with the first element and ends with the last. */
  lemma {:induction false} JoinEnds(xs: seq<string>, sep: string)
    requires xs != []
    ensures |Join(xs, sep)| >= |xs[0]| && Join(xs, sep)[..|xs[0]|] == xs[0]
    ensures |Join(xs, sep)| >= |xs[|xs| - 1]|
    ensures Join(xs, sep)[|Join(xs, sep)| - |xs[|xs| - 1]|..] == xs[|xs| - 1]
  {
    if |xs| > 1 {
      JoinEnds(xs[1..], sep);
      assert xs[1..][|xs[1..]| - 1] == xs[|xs| - 1];
      var rest := Join(xs[1..], sep);
      var j := xs[0] + sep + rest;
      assert j[|j| - |xs[|xs| - 1]|..] == rest[|rest| - |xs[|xs| - 1]|..];
    }
  }

  /** Joining clean strings with any separator gives a clean string. */
  lemma JoinClean(xs: seq<string>, sep: string)
    requires xs != [] && forall i :: 0 <= i < |xs| ==> Clean(xs[i])
    ensures Clean(Join(xs, sep))
  {
    JoinEnds(xs, sep);
    var j := Join(xs, sep);
    assert j[0] == j[..|xs[0]|][0];
    var l := xs[|xs| - 1];
    assert j[|j| - 1] == j[|j| - |l|..][|l| - 1];
  }

  /**
   * Joining clean strings by single spaces needs no trim; with an empty
   * string in front, the trim removes exactly the separator it brings.
   */
  lemma TrimJoin(xs: seq<string>)
    requires forall i :: 0 <= i < |xs| ==> Clean(xs[i])
    ensures Trim(Join(xs, " ")) == Join(xs, " ")
    ensures Trim(Join([""] + xs, " ")) == Join(xs, " ")
  {
    if xs == [] {
      assert [""] + xs == [""];
      TrimIdentity("");
    } else {
      var j := Join(xs, " ");
      JoinClean(xs, " ");
      TrimIdentity(j);
      JoinEmptyFront(xs);
      TrimLeadingSpace(j);
    }
  }

  /** An empty first element leaves only its separator in front. */
  lemma JoinEmptyFront(xs: seq<string>)
    requires xs != []
    ensures Join([""] + xs, " ") == " " + Join(xs, " ")
  {
    var ys := [""] + xs;
    assert ys[0] == "" && ys[1..] == xs && |ys| > 1;
  }

  /** Trim removes one leading space from a clean string. */
  lemma TrimLeadingSpace(j: string)
    requires Clean(j)
    ensures Trim(" " + j) == j
  {
    assert AllSpace(" ");
    TrimPadded(" ", j, []);
    assert " " + j + [] == " " + j;
  }
}
