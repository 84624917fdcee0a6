/**
 * `removeTrailingCommas` of fix-comma-lock.ts: two global replacements,
 * `,(\s*[\]}])` and then `,(\s*[\]])`, each keeping the group it matched,
 * which together turn a lock file with trailing commas into JSON.
 *
 * Each replacement is modelled as the left-to-right scan the regular
 * expression engine performs, `ReplaceFrom`, and proved equal to the
 * character-level description `Drop`: the input without the commas whose
 * next non-whitespace character closes a bracket.
 */
module FixCommaLock {
  import opened JsText

  /** The closers of the first pass, `[\]}]`. */
  const OBJECT_OR_ARRAY: set<char> := {']', '}'}

  /** The closer of the second pass, `[\]]`. */
  const ARRAY_ONLY: set<char> := {']'}

  /**
   * The pattern matches at `i`: a comma, then whitespace, then a closer.
   * (`\s*` is greedy; giving back whitespace leaves a whitespace character
   * where the closer must stand, so the longest run is the only candidate.)
   */
  predicate Deletable(s: string, i: nat, closers: set<char>)
    requires i < |s|
  {
    s[i] == ',' && SkipSpaces(s, i + 1) < |s| && s[SkipSpaces(s, i + 1)] in closers
  }

  /**
   * `String.prototype.replace` with a global pattern, from position `i`: at
   * a match the whitespace and the closer are written back and the scan
   * resumes after them; elsewhere one character is copied.
   */
  function ReplaceFrom(s: string, i: nat, closers: set<char>): (r: string)
    requires i <= |s|
    ensures |r| <= |s| - i
    decreases |s| - i
  {
    if i == |s| then []
    else if Deletable(s, i, closers) then
      var j := SkipSpaces(s, i + 1);
      s[i + 1..j + 1] + ReplaceFrom(s, j + 1, closers)
    else [s[i]] + ReplaceFrom(s, i + 1, closers)
  }

  /** One replacement pass over the whole text. */
  function ReplacePass(s: string, closers: set<char>): string {
    ReplaceFrom(s, 0, closers)
  }

  /** `removeTrailingCommas`. */
  function RemoveTrailingCommas(json: string): string {
    ReplacePass(ReplacePass(json, OBJECT_OR_ARRAY), ARRAY_ONLY)
  }

  /** The characters from `i` on, without the deletable commas. */
  function DropFrom(s: string, i: nat, closers: set<char>): string
    requires i <= |s|
    decreases |s| - i
  {
    if i == |s| then []
    else (if Deletable(s, i, closers) then [] else [s[i]]) + DropFrom(s, i + 1, closers)
  }

  function Drop(s: string, closers: set<char>): string {
    DropFrom(s, 0, closers)
  }

  /** A stretch of whitespace and a closer holds no comma, so nothing in it is dropped. */
  lemma {:induction false} DropKeepsRun(s: string, a: nat, b: nat, closers: set<char>)
    requires a <= b <= |s|
    requires forall k :: a <= k < b ==> s[k] != ','
    ensures DropFrom(s, a, closers) == s[a..b] + DropFrom(s, b, closers)
    decreases b - a
  {
    if a < b {
      DropKeepsRun(s, a + 1, b, closers);
      var rest := DropFrom(s, b, closers);
      assert !Deletable(s, a, closers);
      assert DropFrom(s, a, closers) == [s[a]] + (s[a + 1..b] + rest);
      assert s[a..b] == [s[a]] + s[a + 1..b];
      assert [s[a]] + (s[a + 1..b] + rest) == [s[a]] + s[a + 1..b] + rest;
    }
  }

  /** The scan of the regular expression engine deletes exactly the deletable commas. */
  lemma {:induction false} ReplaceIsDrop(s: string, i: nat, closers: set<char>)
    requires i <= |s|
    requires ',' !in closers
    ensures ReplaceFrom(s, i, closers) == DropFrom(s, i, closers)
    decreases |s| - i
  {
    if i < |s| {
      if Deletable(s, i, closers) {
        var j := SkipSpaces(s, i + 1);
        ReplaceIsDrop(s, j + 1, closers);
        DropKeepsRun(s, i + 1, j + 1, closers);
      } else {
        ReplaceIsDrop(s, i + 1, closers);
      }
    }
  }

  /** Both passes are deletions of the deletable commas. */
  lemma PassesAreDrops(json: string)
    ensures ReplacePass(json, OBJECT_OR_ARRAY) == Drop(json, OBJECT_OR_ARRAY)
    ensures RemoveTrailingCommas(json) == Drop(Drop(json, OBJECT_OR_ARRAY), ARRAY_ONLY)
  {
    ReplaceIsDrop(json, 0, OBJECT_OR_ARRAY);
    ReplaceIsDrop(Drop(json, OBJECT_OR_ARRAY), 0, ARRAY_ONLY);
  }

  /** The characters of `s` other than commas, in order. */
  function NonCommas(s: string): (r: string)
    ensures ',' !in r
  {
    if s == [] then [] else (if s[0] == ',' then [] else [s[0]]) + NonCommas(s[1..])
  }

  lemma {:induction false} NonCommasAppend(a: string, b: string)
    ensures NonCommas(a + b) == NonCommas(a) + NonCommas(b)
  {
    if a == [] {
      assert a + b == b;
    } else {
      assert (a + b)[1..] == a[1..] + b;
      NonCommasAppend(a[1..], b);
    }
  }

  /**
   * Deletion removes commas only and never reorders: what is not a comma
   * is kept, in order, and the text never grows.
   */
  lemma {:induction false} DropOnlyCommas(s: string, i: nat, closers: set<char>)
    requires i <= |s|
    ensures NonCommas(DropFrom(s, i, closers)) == NonCommas(s[i..])
    ensures |DropFrom(s, i, closers)| <= |s| - i
    decreases |s| - i
  {
    if i < |s| {
      DropOnlyCommas(s, i + 1, closers);
      var head := if Deletable(s, i, closers) then [] else [s[i]];
      NonCommasAppend(head, DropFrom(s, i + 1, closers));
      assert s[i..] == [s[i]] + s[i + 1..];
      NonCommasAppend([s[i]], s[i + 1..]);
    }
  }

  /** The whole rewrite keeps every character but commas, in order, and never grows. */
  lemma RemoveOnlyCommas(json: string)
    ensures NonCommas(RemoveTrailingCommas(json)) == NonCommas(json)
    ensures |RemoveTrailingCommas(json)| <= |json|
  {
    PassesAreDrops(json);
    var once := Drop(json, OBJECT_OR_ARRAY);
    DropOnlyCommas(json, 0, OBJECT_OR_ARRAY);
    DropOnlyCommas(once, 0, ARRAY_ONLY);
    assert json[0..] == json && once[0..] == once;
  }

  /** A text with no deletable comma passes through a pass unchanged. */
  lemma {:induction false} DropNothing(s: string, i: nat, closers: set<char>)
    requires i <= |s|
    requires forall k :: i <= k < |s| ==> !Deletable(s, k, closers)
    ensures DropFrom(s, i, closers) == s[i..]
    decreases |s| - i
  {
    if i < |s| {
      DropNothing(s, i + 1, closers);
      assert s[i..] == [s[i]] + s[i + 1..];
    }
  }

  /**
   * A text in which no comma is followed, after whitespace, by `]` or `}`
   * is returned unchanged.
   */
  lemma UnchangedWithoutTrailingCommas(json: string)
    requires forall k :: 0 <= k < |json| ==> !Deletable(json, k, OBJECT_OR_ARRAY)
    ensures RemoveTrailingCommas(json) == json
  {
    PassesAreDrops(json);
    DropNothing(json, 0, OBJECT_OR_ARRAY);
    assert json[0..] == json;
    forall k | 0 <= k < |json| ensures !Deletable(json, k, ARRAY_ONLY) {
      assert !Deletable(json, k, OBJECT_OR_ARRAY);
    }
    DropNothing(json, 0, ARRAY_ONLY);
  }

  // Examples.

  /** The first pass leaves one of two commas before `]`; the second removes it. */
  lemma DoubleCommaInArray()
    ensures ReplacePass(",,]", OBJECT_OR_ARRAY) == ",]"
    ensures RemoveTrailingCommas(",,]") == "]"
  {
    var s := ",,]";
    assert !Deletable(s, 0, OBJECT_OR_ARRAY) && Deletable(s, 1, OBJECT_OR_ARRAY);
    assert ReplaceFrom(s, 3, OBJECT_OR_ARRAY) == [];
    assert ReplaceFrom(s, 1, OBJECT_OR_ARRAY) == "]";
    var t := ",]";
    assert Deletable(t, 0, ARRAY_ONLY);
    assert ReplaceFrom(t, 2, ARRAY_ONLY) == [];
  }

  /** Before `}` only the last of two commas goes: the second pass is for arrays. */
  lemma DoubleCommaInObject()
    ensures RemoveTrailingCommas(",,}") == ",}"
  {
    var s := ",,}";
    assert !Deletable(s, 0, OBJECT_OR_ARRAY) && Deletable(s, 1, OBJECT_OR_ARRAY);
    assert ReplaceFrom(s, 3, OBJECT_OR_ARRAY) == [];
    assert ReplaceFrom(s, 1, OBJECT_OR_ARRAY) == "}";
    var t := ",}";
    assert !Deletable(t, 0, ARRAY_ONLY) && !Deletable(t, 1, ARRAY_ONLY);
    assert ReplaceFrom(t, 2, ARRAY_ONLY) == [];
  }

  /** String literals are not skipped: a comma before `]` inside one is removed too. */
  lemma CommaInsideString()
    ensures RemoveTrailingCommas("\",]\"") == "\"]\""
  {
    var s := "\",]\"";
    assert !Deletable(s, 0, OBJECT_OR_ARRAY) && Deletable(s, 1, OBJECT_OR_ARRAY);
    assert ReplaceFrom(s, 3, OBJECT_OR_ARRAY) == "\"";
    assert ReplaceFrom(s, 0, OBJECT_OR_ARRAY) == "\"]\"";
    var t := "\"]\"";
    assert !Deletable(t, 0, ARRAY_ONLY) && !Deletable(t, 1, ARRAY_ONLY) && !Deletable(t, 2, ARRAY_ONLY);
    assert ReplaceFrom(t, 2, ARRAY_ONLY) == "\"";
  }
}
