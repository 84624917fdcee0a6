/**
 * The resolver on the concrete configurations of its test suite
 * (packages/core/__tests__/atomic.test.ts), with the default identity
 * `finalize` hook.
 */
module AtomicScenarios {
  import opened Collections
  import opened JsText
  import opened Atomic

  /** A one-property selection with no defaults iterates that one property. */
  lemma SingleEntry(o: Options, variants: VariantTable, arg: Entries<Value>)
    requires o.defaultVariants.None? && |arg| == 1
    requires arg[0].0 != "className" && arg[0].1 != Undefined
    ensures ClassNameOf(arg) == Undefined
    ensures Merged(o, arg) == arg
    ensures VariantTokens(variants, o.responsiveVariants, arg) == EntryTokens(variants, o.responsiveVariants, arg[0])
  {
    assert arg[1..] == [];
    assert ParamVariants(arg) == arg;
    assert Put([], arg[0].0, arg[0].1) == arg;
    assert DefaultsOf(o) == [];
    assert Assign([], arg) == Assign(arg, []) == arg;
    VariantTokensSnoc(variants, o.responsiveVariants, [], arg[0]);
    assert [] + [arg[0]] == arg;
  }

  // No selection: base and override only.

  lemma NoSelectionTokens(o: Options)
    requires o == Options(Some("text-center"), Some("font-bold"), Some(map[
      "size" := map["small" := "test"],
      "padding" := map["medium" := "test", "small" := "test"],
      "color" := map["backlground" := "test", "red" := "best"]]), None, Some(Flag(true)))
    ensures ClassList(o, o.variants.value, []) == ["text-center", "font-bold"]
  {
    assert ParamVariants([]) == [];
    assert Merged(o, []) == [];
  }

  // Order: base, variants, override, className.

  lemma OrderTokens(o: Options, arg: Entries<Value>)
    requires o == Options(Some("text-base"), Some("text-red-500"), Some(map["color" := map["blue" := "text-blue-500"]]), None, None)
    requires arg == [("color", Str("blue")), ("className", Str("text-green-500"))]
    ensures ClassList(o, o.variants.value, arg) == ["text-base", "text-blue-500", "text-red-500", "text-green-500"]
  {
    assert arg[1..] == [("className", Str("text-green-500"))];
    assert Get(arg, "className") == Get(arg[1..], "className") == Some(Str("text-green-500"));
    assert ParamVariants(arg) == [("color", Str("blue"))];
    var p := [("color", Str("blue"))];
    assert Put([], "color", Str("blue")) == p;
    assert Assign([], p) == Assign(p, []) == p;
    assert Merged(o, arg) == p;
    assert EntryTokens(o.variants.value, None, ("color", Str("blue"))) == ["text-blue-500"];
    assert VariantTokens(o.variants.value, None, [("color", Str("blue"))]) == ["text-blue-500"];
  }

  // Boolean variants are looked up as "true" / "false".

  lemma BooleanTokens(o: Options, b: bool)
    requires o == Options(Some("flex"), None, Some(map["isActive" := map["true" := "bg-green-500", "false" := "bg-gray-300"]]), None, None)
    ensures ClassList(o, o.variants.value, [("isActive", Bool(b))]) == ["flex", if b then "bg-green-500" else "bg-gray-300"]
  {
    var arg := [("isActive", Bool(b))];
    SingleEntry(o, o.variants.value, arg);
    assert EntryTokens(o.variants.value, None, ("isActive", Bool(b))) == [if b then "bg-green-500" else "bg-gray-300"];
  }

  // Responsive mode for every group: xs unprefixed, md prefixed.

  lemma PaddingBreakpoints(table: GroupTable, bps: Entries<Value>)
    requires table == map["small" := "p-1", "large" := "p-2"]
    requires bps == [("xs", Str("small")), ("md", Str("large"))]
    ensures BreakpointTokens(table, bps) == ["p-1", "md:p-2"]
  {
    BreakpointTokensAt(table, bps, 0);
    BreakpointTokensAt(table, bps, 1);
    assert "md" + ":" + "p-2" == "md:p-2";
  }

  lemma ResponsiveTokens(o: Options, arg: Entries<Value>)
    requires o == Options(Some("w-20 h-20"), None, Some(map["padding" := map["small" := "p-1", "large" := "p-2"]]), None, Some(Flag(true)))
    requires arg == [("padding", Obj([("xs", Str("small")), ("md", Str("large"))]))]
    ensures ClassList(o, o.variants.value, arg) == ["w-20 h-20", "p-1", "md:p-2"]
  {
    var variants := o.variants.value;
    SingleEntry(o, variants, arg);
    PaddingBreakpoints(variants["padding"], arg[0].1.entries);
    assert EntryTokens(variants, Some(Flag(true)), arg[0]) == ["p-1", "md:p-2"];
  }

  // Responsive mode off: a per-breakpoint object is dropped.

  lemma NotResponsiveTokens(o: Options, arg: Entries<Value>)
    requires o == Options(Some("block"), None, Some(map["padding" := map["sm" := "p-2", "md" := "p-4"]]), None, None)
    requires arg == [("padding", Obj([("xs", Str("sm")), ("md", Str("md"))]))]
    ensures ClassList(o, o.variants.value, arg) == ["block"]
  {
    SingleEntry(o, o.variants.value, arg);
    assert EntryTokens(o.variants.value, None, arg[0]) == [];
  }

  /** A two-property selection with no defaults iterates those two properties, in order. */
  lemma TwoEntries(o: Options, variants: VariantTable, arg: Entries<Value>)
    requires o.defaultVariants.None? && |arg| == 2 && arg[0].0 != arg[1].0
    requires arg[0].0 != "className" && arg[0].1 != Undefined
    requires arg[1].0 != "className" && arg[1].1 != Undefined
    ensures ClassNameOf(arg) == Undefined
    ensures Merged(o, arg) == arg
    ensures VariantTokens(variants, o.responsiveVariants, arg)
         == EntryTokens(variants, o.responsiveVariants, arg[0]) + EntryTokens(variants, o.responsiveVariants, arg[1])
  {
    var rv := o.responsiveVariants;
    assert arg[1..] == [arg[1]];
    assert arg[1..][1..] == [];
    assert Get(arg, "className") == Get(arg[1..], "className") == Get([], "className");
    assert ParamVariants(arg) == arg;
    assert DefaultsOf(o) == [];
    var m1 := Put([], arg[0].0, arg[0].1);
    assert m1 == [arg[0]];
    assert Put(m1, arg[1].0, arg[1].1) == [arg[0]] + Put([], arg[1].0, arg[1].1) == arg;
    assert Assign([], arg) == Assign(m1, arg[1..]) == Assign(arg, []) == arg;
    assert VariantTokens(variants, rv, arg[1..]) == EntryTokens(variants, rv, arg[1]) + [];
  }

  /** The token list of such a selection: base, the two entries' tokens, override. */
  lemma TwoEntriesList(o: Options, arg: Entries<Value>, t0: seq<string>, t1: seq<string>, expected: seq<string>)
    requires o.variants.Some? && o.defaultVariants.None? && |arg| == 2 && arg[0].0 != arg[1].0
    requires arg[0].0 != "className" && arg[0].1 != Undefined
    requires arg[1].0 != "className" && arg[1].1 != Undefined
    requires EntryTokens(o.variants.value, o.responsiveVariants, arg[0]) == t0
    requires EntryTokens(o.variants.value, o.responsiveVariants, arg[1]) == t1
    requires expected == [BaseOf(o)] + (t0 + t1) + OverrideTokens(o)
    ensures ClassList(o, o.variants.value, arg) == expected
  {
    TwoEntries(o, o.variants.value, arg);
    assert ClassNameTokens(arg) == [];
  }

  // Two scalar groups: each pushes its fragment, in selection order.

  lemma TwoScalarEntries(variants: VariantTable)
    requires variants == map[
      "size" := map["small" := "text-sm", "large" := "text-lg"],
      "color" := map["red" := "text-red-500", "blue" := "text-blue-500"]]
    ensures EntryTokens(variants, None, ("size", Str("small"))) == ["text-sm"]
    ensures EntryTokens(variants, None, ("color", Str("red"))) == ["text-red-500"]
  {
  }

  lemma TwoScalarTokens(o: Options, arg: Entries<Value>)
    requires o == Options(Some("text-center"), Some("font-bold"), Some(map[
      "size" := map["small" := "text-sm", "large" := "text-lg"],
      "color" := map["red" := "text-red-500", "blue" := "text-blue-500"]]), None, None)
    requires arg == [("size", Str("small")), ("color", Str("red"))]
    ensures ClassList(o, o.variants.value, arg) == ["text-center", "text-sm", "text-red-500", "font-bold"]
  {
    TwoScalarEntries(o.variants.value);
    TwoEntriesList(o, arg, ["text-sm"], ["text-red-500"], ["text-center", "text-sm", "text-red-500", "font-bold"]);
  }

  // className comes after override.

  lemma ClassNameAfterOverride(o: Options, arg: Entries<Value>)
    requires o == Options(Some("text-center"), Some("font-bold"), Some(map["size" := map["small" := "text-sm"]]), None, None)
    requires arg == [("size", Str("small")), ("className", Str("text-lg font-extrabold"))]
    ensures ClassList(o, o.variants.value, arg) == ["text-center", "text-sm", "font-bold", "text-lg font-extrabold"]
  {
    assert arg[1..] == [("className", Str("text-lg font-extrabold"))];
    assert Get(arg, "className") == Get(arg[1..], "className") == Some(Str("text-lg font-extrabold"));
    var p := [("size", Str("small"))];
    assert ParamVariants(arg) == p;
    assert Put([], "size", Str("small")) == p;
    assert Assign([], p) == Assign(p, []) == p;
    assert Merged(o, arg) == p;
    assert EntryTokens(o.variants.value, None, ("size", Str("small"))) == ["text-sm"];
    assert VariantTokens(o.variants.value, None, p) == ["text-sm"];
  }

  // A list of responsive groups: `padding` takes a per-breakpoint object,
  // `color` stays a scalar group.

  lemma PaddingListBreakpoints(table: GroupTable, bps: Entries<Value>)
    requires table == map["small" := "p-1", "large" := "p-2"]
    requires bps == [("xs", Str("small")), ("lg", Str("large"))]
    ensures BreakpointTokens(table, bps) == ["p-1", "lg:p-2"]
  {
    BreakpointTokensAt(table, bps, 0);
    BreakpointTokensAt(table, bps, 1);
    assert "lg" + ":" + "p-2" == "lg:p-2";
  }

  lemma ListedGroupEntries(variants: VariantTable, rv: Option<Responsive>)
    requires variants == map[
      "padding" := map["small" := "p-1", "large" := "p-2"],
      "color" := map["red" := "text-red-500", "blue" := "text-blue-500"]]
    requires rv == Some(Groups(["padding"]))
    ensures EntryTokens(variants, rv, ("padding", Obj([("xs", Str("small")), ("lg", Str("large"))]))) == ["p-1", "lg:p-2"]
    ensures EntryTokens(variants, rv, ("color", Str("red"))) == ["text-red-500"]
  {
    PaddingListBreakpoints(variants["padding"], [("xs", Str("small")), ("lg", Str("large"))]);
    assert IsResponsiveVariant(rv, "padding");
    assert "color" != "padding";
  }

  lemma ListedGroupTokens(o: Options, arg: Entries<Value>)
    requires o == Options(Some("w-20 h-20"), None, Some(map[
      "padding" := map["small" := "p-1", "large" := "p-2"],
      "color" := map["red" := "text-red-500", "blue" := "text-blue-500"]]), None, Some(Groups(["padding"])))
    requires arg == [("padding", Obj([("xs", Str("small")), ("lg", Str("large"))])), ("color", Str("red"))]
    ensures ClassList(o, o.variants.value, arg) == ["w-20 h-20", "p-1", "lg:p-2", "text-red-500"]
  {
    ListedGroupEntries(o.variants.value, o.responsiveVariants);
    TwoEntriesList(o, arg, ["p-1", "lg:p-2"], ["text-red-500"], ["w-20 h-20", "p-1", "lg:p-2", "text-red-500"]);
  }

  /** A token list with clean entries is what the resolver joins and hands to `finalize`. */
  lemma CleanListResolved(o: Options, f: string -> string, arg: Entries<Value>, list: seq<string>)
    requires o.variants.Some? && ClassList(o, o.variants.value, arg) == list
    requires forall t :: t in list ==> Clean(t)
    ensures ResolvedClassName(o, f, arg) == f(Join(list, " "))
  {
    assert list[0] in list;
    assert BaseOf(o) == list[0] && Clean(BaseOf(o));
    assert BaseOf(o) != "";
    forall t | t in list[1..] ensures Clean(t) {
      assert t in list;
    }
    ClassNameOfCleanTokens(o, f, arg);
  }

  /** Four words joined by a separator. */
  lemma JoinFour(a: string, b: string, c: string, d: string, sep: string)
    ensures Join([a, b, c, d], sep) == a + sep + (b + sep + (c + sep + d))
  {
    var xs := [a, b, c, d];
    assert xs[1..] == [b, c, d];
    assert xs[1..][1..] == [c, d];
    assert xs[1..][1..][1..] == [d];
    assert Join(xs[1..][1..], sep) == c + sep + d;
    assert Join(xs[1..], sep) == b + sep + (c + sep + d);
  }

  lemma ListedGroupClean(list: seq<string>)
    requires list == ["w-20 h-20", "p-1", "lg:p-2", "text-red-500"]
    ensures forall t :: t in list ==> Clean(t)
  {
  }

  lemma ListedGroupJoin()
    ensures Join(["w-20 h-20", "p-1", "lg:p-2", "text-red-500"], " ") == "w-20 h-20 p-1 lg:p-2 text-red-500"
  {
    JoinFour("w-20 h-20", "p-1", "lg:p-2", "text-red-500", " ");
    assert "w-20 h-20" + " " + ("p-1" + " " + ("lg:p-2" + " " + "text-red-500")) == "w-20 h-20 p-1 lg:p-2 text-red-500";
  }

  lemma ListedGroupClassName(o: Options, arg: Entries<Value>)
    requires o == Options(Some("w-20 h-20"), None, Some(map[
      "padding" := map["small" := "p-1", "large" := "p-2"],
      "color" := map["red" := "text-red-500", "blue" := "text-blue-500"]]), None, Some(Groups(["padding"])))
    requires arg == [("padding", Obj([("xs", Str("small")), ("lg", Str("large"))])), ("color", Str("red"))]
    ensures ResolvedClassName(o, s => s, arg) == "w-20 h-20 p-1 lg:p-2 text-red-500"
  {
    var list := ["w-20 h-20", "p-1", "lg:p-2", "text-red-500"];
    ListedGroupTokens(o, arg);
    ListedGroupClean(list);
    ListedGroupJoin();
    CleanListResolved(o, s => s, arg, list);
  }

  // With every group responsive, `xs` is unprefixed.

  lemma XsUnprefixedTokens(o: Options, arg: Entries<Value>)
    requires o == Options(Some("block"), None, Some(map["padding" := map["sm" := "p-2", "md" := "p-4"]]), None, Some(Flag(true)))
    requires arg == [("padding", Obj([("xs", Str("sm")), ("md", Str("md"))]))]
    ensures ClassList(o, o.variants.value, arg) == ["block", "p-2", "md:p-4"]
  {
    var variants := o.variants.value;
    var bps := [("xs", Str("sm")), ("md", Str("md"))];
    SingleEntry(o, variants, arg);
    BreakpointTokensAt(variants["padding"], bps, 0);
    BreakpointTokensAt(variants["padding"], bps, 1);
    assert "md" + ":" + "p-4" == "md:p-4";
    assert EntryTokens(variants, Some(Flag(true)), arg[0]) == ["p-2", "md:p-4"];
  }


}
