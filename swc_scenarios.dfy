/**
 * The class enumerator on the inputs of the inline tests of
 * packages/swc-plugin/src/lib.rs.
 */
module SwcScenarios {
  import opened Collections
  import opened JsText
  import opened SwcAst
  import opened SwcCollector
  import opened SwcProperties

  /** `key: value` with an identifier key. */
  function Field(key: string, value: Expr): PropOrSpread {
    PropItem(KeyValue(IdentName(key), value))
  }

  /** A string literal array element. */
  function Elem(s: string): Option<ExprOrSpread> {
    Some(ExprOrSpread(false, StrLit(s)))
  }

  lemma ScanThree(p0: PropOrSpread, p1: PropOrSpread, p2: PropOrSpread)
    ensures Scan(INITIAL, [p0, p1, p2]) == Step(Step(Step(INITIAL, p0), p1), p2)
  {
    assert [p0, p1, p2][1..] == [p1, p2];
    assert [p1, p2][1..] == [p2];
    ScanOne(Step(Step(INITIAL, p0), p1), p2);
  }

  /** One group with one value. */
  lemma OneGroup(name: string, key: string, value: string)
    ensures AddGroups([], [Field(name, ObjectLit([Field(key, StrLit(value))]))]) == [(name, [value])]
  {
    var p := Field(name, ObjectLit([Field(key, StrLit(value))]));
    assert [p][1..] == [];
    assert GroupValues([Field(key, StrLit(value))]) == [value] by {
      assert [Field(key, StrLit(value))][1..] == [];
    }
  }

  lemma RowOne(size: string, c: string)
    ensures Row(size, [c]) == [size + ":" + c]
  {
    assert [c][1..] == [];
  }

  // custom_responsive_sizes: one group, two custom sizes.

  lemma CustomSizesState(props: seq<PropOrSpread>)
    requires props == [
      Field("variants", ObjectLit([Field("color", ObjectLit([Field("blue", StrLit("bg-blue-600"))]))])),
      Field("responsiveVariants", ArrayLit([Elem("color")])),
      Field("responsiveSizes", ArrayLit([Elem("sm"), Elem("md")]))]
    ensures Scan(INITIAL, props) == ScanState([("color", ["bg-blue-600"])], Some(["color"]), ["sm", "md"])
  {
    ScanThree(props[0], props[1], props[2]);
    var st0 := Step(INITIAL, props[0]);
    StepVariants(INITIAL, props[0].prop.value.props);
    OneGroup("color", "blue", "bg-blue-600");
    var st1 := Step(st0, props[1]);
    StepResponsiveArray(st0, [Elem("color")]);
    assert StringElems([Elem("color")]) == ["color"] by {
      assert [Elem("color")][1..] == [];
    }
    StepSizes(st1, [Elem("sm"), Elem("md")]);
    assert StringElems([Elem("sm"), Elem("md")]) == ["sm", "md"] by {
      assert [Elem("sm"), Elem("md")][1..] == [Elem("md")];
      assert [Elem("md")][1..] == [];
    }
  }

  lemma CustomSizesGrid()
    ensures Prefixed(["sm", "md"], ["bg-blue-600"]) == ["sm:bg-blue-600", "md:bg-blue-600"]
  {
    assert ["sm", "md"][1..] == ["md"];
    assert ["md"][1..] == [];
    RowOne("sm", "bg-blue-600");
    RowOne("md", "bg-blue-600");
    assert "sm" + ":" + "bg-blue-600" == "sm:bg-blue-600";
    assert "md" + ":" + "bg-blue-600" == "md:bg-blue-600";
  }

  lemma CustomSizesClasses(props: seq<PropOrSpread>)
    requires props == [
      Field("variants", ObjectLit([Field("color", ObjectLit([Field("blue", StrLit("bg-blue-600"))]))])),
      Field("responsiveVariants", ArrayLit([Elem("color")])),
      Field("responsiveSizes", ArrayLit([Elem("sm"), Elem("md")]))]
    ensures var st := Scan(INITIAL, props);
      Prefixed(st.sizes, Collected(st)) == ["sm:bg-blue-600", "md:bg-blue-600"]
  {
    CustomSizesState(props);
    assert Collect([("color", ["bg-blue-600"])], ["color"]) == ["bg-blue-600"] by {
      assert ["color"][1..] == [];
    }
    CustomSizesGrid();
  }

  // all_variants_true: `responsiveVariants: true` selects both groups.

  lemma TwoValues(k1: string, v1: string, k2: string, v2: string)
    ensures GroupValues([Field(k1, StrLit(v1)), Field(k2, StrLit(v2))]) == [v1, v2]
  {
    var props := [Field(k1, StrLit(v1)), Field(k2, StrLit(v2))];
    assert props[1..] == [Field(k2, StrLit(v2))];
    assert props[1..][1..] == [];
    assert GroupValues(props[1..]) == [v2] + [];
    assert GroupValues(props) == [v1] + [v2];
  }

  lemma TwoGroupsMap(variants: seq<PropOrSpread>)
    requires variants == [
      Field("color", ObjectLit([Field("primary", StrLit("bg-green-500")), Field("secondary", StrLit("bg-red-500"))])),
      Field("size", ObjectLit([Field("sm", StrLit("p-2")), Field("lg", StrLit("p-8"))]))]
    ensures AddGroups([], variants) == [("color", ["bg-green-500", "bg-red-500"]), ("size", ["p-2", "p-8"])]
  {
    TwoValues("primary", "bg-green-500", "secondary", "bg-red-500");
    TwoValues("sm", "p-2", "lg", "p-8");
    assert variants[1..] == [variants[1]];
    assert variants[1..][1..] == [];
    var m1 := AddGroup([], variants[0]);
    assert m1 == [("color", ["bg-green-500", "bg-red-500"])];
    var m2 := AddGroup(m1, variants[1]);
    assert m2 == Put(m1, "size", ["p-2", "p-8"]);
    assert m1[1..] == [];
    assert AddGroups([], variants) == AddGroups(m1, variants[1..]);
    assert AddGroups(m1, variants[1..]) == AddGroups(m2, []);
  }

  lemma AllVariantsTrueState(props: seq<PropOrSpread>, variants: seq<PropOrSpread>)
    requires variants == [
      Field("color", ObjectLit([Field("primary", StrLit("bg-green-500")), Field("secondary", StrLit("bg-red-500"))])),
      Field("size", ObjectLit([Field("sm", StrLit("p-2")), Field("lg", StrLit("p-8"))]))]
    requires props == [Field("variants", ObjectLit(variants)), ALL_RESPONSIVE]
    ensures Scan(INITIAL, props)
         == ScanState([("color", ["bg-green-500", "bg-red-500"]), ("size", ["p-2", "p-8"])], Some(["color", "size"]), DEFAULT_SIZES)
  {
    var m := [("color", ["bg-green-500", "bg-red-500"]), ("size", ["p-2", "p-8"])];
    TwoGroupsMap(variants);
    assert props[1..] == [ALL_RESPONSIVE];
    ScanOne(Step(INITIAL, props[0]), ALL_RESPONSIVE);
    StepVariants(INITIAL, variants);
    StepAllResponsive(INITIAL.(variantMap := m));
    assert Keys(m) == ["color", "size"] by {
      assert m[1..] == [("size", ["p-2", "p-8"])];
      assert m[1..][1..] == [];
    }
  }

  lemma AllVariantsTrueClasses(props: seq<PropOrSpread>, variants: seq<PropOrSpread>)
    requires variants == [
      Field("color", ObjectLit([Field("primary", StrLit("bg-green-500")), Field("secondary", StrLit("bg-red-500"))])),
      Field("size", ObjectLit([Field("sm", StrLit("p-2")), Field("lg", StrLit("p-8"))]))]
    requires props == [Field("variants", ObjectLit(variants)), ALL_RESPONSIVE]
    ensures Scan(INITIAL, props).sizes == DEFAULT_SIZES
    ensures Collected(Scan(INITIAL, props)) == ["bg-green-500", "bg-red-500", "p-2", "p-8"]
  {
    var m := [("color", ["bg-green-500", "bg-red-500"]), ("size", ["p-2", "p-8"])];
    AllVariantsTrueState(props, variants);
    assert ["color", "size"][1..] == ["size"];
    assert ["size"][1..] == [];
    assert m[1..] == [("size", ["p-2", "p-8"])];
    assert GroupOf(m, "color") == ["bg-green-500", "bg-red-500"];
    assert GroupOf(m, "size") == ["p-2", "p-8"];
    assert Collect(m, ["size"]) == ["p-2", "p-8"] + [];
    assert Collect(m, ["color", "size"]) == ["bg-green-500", "bg-red-500"] + ["p-2", "p-8"];
  }

  // no_responsive_variants: nothing is enumerated, so no marker.

  lemma NoResponsiveNoMarker(tag: string, call: CallExpr, variants: seq<PropOrSpread>)
    requires call == CallExpr(CalleeExpr(IdentRef("atomic")), [ExprOrSpread(false, ObjectLit([
      Field("base", StrLit("shadow")),
      Field("variants", ObjectLit(variants))]))])
    ensures CallMarkers(tag, call) == []
  {
    var props := [Field("base", StrLit("shadow")), Field("variants", ObjectLit(variants))];
    assert AtomicArg(call) == Some(props);
    assert !SetsResponsive(props[0]) by {
      assert |"base"| != |"responsiveVariants"|;
    }
    assert !SetsResponsive(props[1]) by {
      assert |"variants"| != |"responsiveVariants"|;
    }
    ResponsiveKept(INITIAL, props);
    assert Collected(Scan(INITIAL, props)) == [];
    PrefixedLength(Scan(INITIAL, props).sizes, []);
  }

  // ---------------------------------------------------------------------
  // Helpers shared by the scenarios below

  /** A group object with one string value. */
  lemma OneValue(k: string, v: string)
    ensures GroupValues([Field(k, StrLit(v))]) == [v]
  {
    assert [Field(k, StrLit(v))][1..] == [];
  }

  /** A `variants` object with two distinct identifier-keyed groups. */
  lemma TwoGroups(n1: string, g1: seq<PropOrSpread>, n2: string, g2: seq<PropOrSpread>)
    requires n1 != n2
    ensures AddGroups([], [Field(n1, ObjectLit(g1)), Field(n2, ObjectLit(g2))])
         == [(n1, GroupValues(g1)), (n2, GroupValues(g2))]
  {
    var variants := [Field(n1, ObjectLit(g1)), Field(n2, ObjectLit(g2))];
    assert variants[1..] == [variants[1]];
    assert variants[1..][1..] == [];
    var m1 := AddGroup([], variants[0]);
    assert m1 == [(n1, GroupValues(g1))];
    assert m1[1..] == [];
    assert Put(m1, n2, GroupValues(g2)) == [m1[0]] + Put(m1[1..], n2, GroupValues(g2));
    var m2 := AddGroup(m1, variants[1]);
    assert m2 == [(n1, GroupValues(g1)), (n2, GroupValues(g2))];
    assert AddGroups([], variants) == AddGroups(m1, variants[1..]);
    assert AddGroups(m1, variants[1..]) == AddGroups(m2, []);
  }

  /** `atomic({...})` with the given properties. */
  function AtomicCall(props: seq<PropOrSpread>): CallExpr {
    CallExpr(CalleeExpr(IdentRef("atomic")), [ExprOrSpread(false, ObjectLit(props))])
  }

  /** An `atomic({...})` call enumerates the grid of its scanned properties. */
  lemma AtomicCallClasses(props: seq<PropOrSpread>)
    ensures var st := Scan(INITIAL, props);
      CallClasses(AtomicCall(props)) == Prefixed(st.sizes, Collected(st))
  {
  }

  /** A key other than the three the loop reads leaves the state alone. */
  lemma StepOther(st: ScanState, key: string, v: Expr)
    requires key != "variants" && key != "responsiveVariants" && key != "responsiveSizes"
    ensures Step(st, Field(key, v)) == st
  {
  }

  /** The grid over the default sizes, row by row. */
  lemma DefaultSizesRows(classes: seq<string>)
    ensures Prefixed(DEFAULT_SIZES, classes)
         == Row("xs", classes) + (Row("sm", classes) + (Row("md", classes)
          + (Row("lg", classes) + (Row("xl", classes) + Row("2xl", classes)))))
  {
    var ss := DEFAULT_SIZES;
    assert ss[1..] == ["sm", "md", "lg", "xl", "2xl"];
    assert ss[1..][1..] == ["md", "lg", "xl", "2xl"];
    assert ss[1..][1..][1..] == ["lg", "xl", "2xl"];
    assert ss[1..][1..][1..][1..] == ["xl", "2xl"];
    assert ss[1..][1..][1..][1..][1..] == ["2xl"];
    assert ss[1..][1..][1..][1..][1..][1..] == [];
    assert Prefixed(["2xl"], classes) == Row("2xl", classes) + [] == Row("2xl", classes);
    assert Prefixed(["xl", "2xl"], classes) == Row("xl", classes) + Row("2xl", classes);
    assert Prefixed(["lg", "xl", "2xl"], classes) == Row("lg", classes) + Prefixed(["xl", "2xl"], classes);
    assert Prefixed(["md", "lg", "xl", "2xl"], classes) == Row("md", classes) + Prefixed(["lg", "xl", "2xl"], classes);
    assert Prefixed(["sm", "md", "lg", "xl", "2xl"], classes) == Row("sm", classes) + Prefixed(["md", "lg", "xl", "2xl"], classes);
  }

  /** One class behind the default sizes. */
  lemma DefaultSizesOneClass(c: string)
    ensures Prefixed(DEFAULT_SIZES, [c])
         == ["xs:" + c, "sm:" + c, "md:" + c, "lg:" + c, "xl:" + c, "2xl:" + c]
  {
    DefaultSizesRows([c]);
    RowOne("xs", c);
    RowOne("sm", c);
    RowOne("md", c);
    RowOne("lg", c);
    RowOne("xl", c);
    RowOne("2xl", c);
    assert "xs" + ":" == "xs:" && "sm" + ":" == "sm:" && "md" + ":" == "md:";
    assert "lg" + ":" == "lg:" && "xl" + ":" == "xl:" && "2xl" + ":" == "2xl:";
  }

  // default: two groups, only `color` responsive, the default sizes.

  lemma DefaultState(props: seq<PropOrSpread>)
    requires props == [
      Field("base", StrLit("font-semibold")),
      Field("variants", ObjectLit([
        Field("color", ObjectLit([Field("primary", StrLit("bg-blue-500"))])),
        Field("padding", ObjectLit([Field("primary", StrLit("p-1"))]))])),
      Field("responsiveVariants", ArrayLit([Elem("color")]))]
    ensures Scan(INITIAL, props) == ScanState([("color", ["bg-blue-500"]), ("padding", ["p-1"])], Some(["color"]), DEFAULT_SIZES)
  {
    ScanThree(props[0], props[1], props[2]);
    assert "base" != "variants" && "base" != "responsiveVariants" && "base" != "responsiveSizes" by {
      assert |"base"| != |"variants"| && |"base"| != |"responsiveVariants"| && |"base"| != |"responsiveSizes"|;
    }
    StepOther(INITIAL, "base", StrLit("font-semibold"));
    StepVariants(INITIAL, props[1].prop.value.props);
    TwoGroups("color", [Field("primary", StrLit("bg-blue-500"))], "padding", [Field("primary", StrLit("p-1"))]);
    OneValue("primary", "bg-blue-500");
    OneValue("primary", "p-1");
    var st1 := Step(INITIAL, props[1]);
    StepResponsiveArray(st1, [Elem("color")]);
    assert StringElems([Elem("color")]) == ["color"] by {
      assert [Elem("color")][1..] == [];
    }
  }

  /** One class behind the default sizes, given the six prefixed names. */
  lemma OneClassGrid(c: string, xs: string, sm: string, md: string, lg: string, xl: string, x2: string)
    requires xs == "xs:" + c && sm == "sm:" + c && md == "md:" + c
    requires lg == "lg:" + c && xl == "xl:" + c && x2 == "2xl:" + c
    ensures Prefixed(DEFAULT_SIZES, [c]) == [xs, sm, md, lg, xl, x2]
  {
    DefaultSizesOneClass(c);
  }

  lemma DefaultMarker(props: seq<PropOrSpread>)
    requires props == [
      Field("base", StrLit("font-semibold")),
      Field("variants", ObjectLit([
        Field("color", ObjectLit([Field("primary", StrLit("bg-blue-500"))])),
        Field("padding", ObjectLit([Field("primary", StrLit("p-1"))]))])),
      Field("responsiveVariants", ArrayLit([Elem("color")]))]
    ensures CallClasses(AtomicCall(props))
         == ["xs:bg-blue-500", "sm:bg-blue-500", "md:bg-blue-500", "lg:bg-blue-500", "xl:bg-blue-500", "2xl:bg-blue-500"]
    ensures CallMarkers(DEFAULT_TAG, AtomicCall(props)) == [StrStmt(MarkerText(DEFAULT_TAG, Join(CallClasses(AtomicCall(props)), " ")))]
  {
    DefaultState(props);
    var m := [("color", ["bg-blue-500"]), ("padding", ["p-1"])];
    assert Collect(m, ["color"]) == ["bg-blue-500"] by {
      assert ["color"][1..] == [];
    }
    AtomicCallClasses(props);
    BlueGrid();
  }

  lemma BlueGrid()
    ensures Prefixed(DEFAULT_SIZES, ["bg-blue-500"])
         == ["xs:bg-blue-500", "sm:bg-blue-500", "md:bg-blue-500", "lg:bg-blue-500", "xl:bg-blue-500", "2xl:bg-blue-500"]
  {
    OneClassGrid("bg-blue-500", "xs:bg-blue-500", "sm:bg-blue-500", "md:bg-blue-500",
      "lg:bg-blue-500", "xl:bg-blue-500", "2xl:bg-blue-500");
  }

  // multiple_variants: two groups, both responsive, the default sizes.

  lemma ScanTwo(p0: PropOrSpread, p1: PropOrSpread)
    ensures Scan(INITIAL, [p0, p1]) == Step(Step(INITIAL, p0), p1)
  {
    assert [p0, p1][1..] == [p1];
    ScanOne(Step(INITIAL, p0), p1);
  }

  lemma MultipleVariantsState(props: seq<PropOrSpread>)
    requires props == [
      Field("variants", ObjectLit([
        Field("color", ObjectLit([Field("red", StrLit("bg-red-600")), Field("green", StrLit("bg-green-600"))])),
        Field("border", ObjectLit([Field("thin", StrLit("border")), Field("thick", StrLit("border-4"))]))])),
      Field("responsiveVariants", ArrayLit([Elem("color"), Elem("border")]))]
    ensures Scan(INITIAL, props)
         == ScanState([("color", ["bg-red-600", "bg-green-600"]), ("border", ["border", "border-4"])], Some(["color", "border"]), DEFAULT_SIZES)
  {
    ScanTwo(props[0], props[1]);
    var g1 := [Field("red", StrLit("bg-red-600")), Field("green", StrLit("bg-green-600"))];
    var g2 := [Field("thin", StrLit("border")), Field("thick", StrLit("border-4"))];
    StepVariants(INITIAL, props[0].prop.value.props);
    TwoGroups("color", g1, "border", g2);
    TwoValues("red", "bg-red-600", "green", "bg-green-600");
    TwoValues("thin", "border", "thick", "border-4");
    StepResponsiveArray(Step(INITIAL, props[0]), [Elem("color"), Elem("border")]);
    assert StringElems([Elem("color"), Elem("border")]) == ["color", "border"] by {
      assert [Elem("color"), Elem("border")][1..] == [Elem("border")];
      assert [Elem("border")][1..] == [];
    }
  }

  lemma MultipleVariantsClasses(props: seq<PropOrSpread>)
    requires props == [
      Field("variants", ObjectLit([
        Field("color", ObjectLit([Field("red", StrLit("bg-red-600")), Field("green", StrLit("bg-green-600"))])),
        Field("border", ObjectLit([Field("thin", StrLit("border")), Field("thick", StrLit("border-4"))]))])),
      Field("responsiveVariants", ArrayLit([Elem("color"), Elem("border")]))]
    ensures Collected(Scan(INITIAL, props)) == ["bg-red-600", "bg-green-600", "border", "border-4"]
    ensures CallClasses(AtomicCall(props)) == Prefixed(DEFAULT_SIZES, ["bg-red-600", "bg-green-600", "border", "border-4"])
    ensures |CallClasses(AtomicCall(props))| == 24
  {
    MultipleVariantsState(props);
    var m := [("color", ["bg-red-600", "bg-green-600"]), ("border", ["border", "border-4"])];
    assert ["color", "border"][1..] == ["border"];
    assert ["border"][1..] == [];
    assert m[1..] == [("border", ["border", "border-4"])];
    assert GroupOf(m, "color") == ["bg-red-600", "bg-green-600"];
    assert GroupOf(m, "border") == ["border", "border-4"];
    assert Collect(m, ["border"]) == ["border", "border-4"] + [];
    assert Collect(m, ["color", "border"]) == ["bg-red-600", "bg-green-600"] + ["border", "border-4"];
    assert Collected(Scan(INITIAL, props)) == ["bg-red-600", "bg-green-600", "border", "border-4"];
    AtomicCallClasses(props);
    PrefixedLength(DEFAULT_SIZES, ["bg-red-600", "bg-green-600", "border", "border-4"]);
  }

  // nested_calls: two calls one after the other, each with one responsive
  // group; both markers go after the import, in call order.

  /** The argument of each call in the test: one `tone` group, responsive. */
  function ToneProps(key: string, c: string): seq<PropOrSpread> {
    [Field("variants", ObjectLit([Field("tone", ObjectLit([Field(key, StrLit(c))]))])),
     Field("responsiveVariants", ArrayLit([Elem("tone")]))]
  }

  lemma ToneMarker(key: string, c: string)
    ensures CallMarkers(DEFAULT_TAG, AtomicCall(ToneProps(key, c)))
         == [StrStmt(MarkerText(DEFAULT_TAG, Join(Prefixed(DEFAULT_SIZES, [c]), " ")))]
  {
    var props := ToneProps(key, c);
    ScanTwo(props[0], props[1]);
    StepVariants(INITIAL, props[0].prop.value.props);
    OneGroup("tone", key, c);
    StepResponsiveArray(Step(INITIAL, props[0]), [Elem("tone")]);
    assert StringElems([Elem("tone")]) == ["tone"] by {
      assert [Elem("tone")][1..] == [];
    }
    var m := [("tone", [c])];
    assert Collect(m, ["tone"]) == [c] by {
      assert ["tone"][1..] == [];
    }
    AtomicCallClasses(props);
    PrefixedLength(DEFAULT_SIZES, [c]);
  }

  /**
   * The module of the test with any two tone classes: after `apply_to_module`
   * the body is the import, the first call's marker, the second call's, then
   * the two declarations. The test's own classes give the grids `OrangeGrid`
   * and `SkyGrid` state.
   */
  method NestedCalls(warm: string, cool: string) returns (body: seq<ModuleItem>)
    ensures body == [
      ImportDecl("atomic-variants"),
      StrStmt(MarkerText(DEFAULT_TAG, Join(Prefixed(DEFAULT_SIZES, [warm]), " "))),
      StrStmt(MarkerText(DEFAULT_TAG, Join(Prefixed(DEFAULT_SIZES, [cool]), " "))),
      OtherDecl,
      OtherDecl]
  {
    var source := [ImportDecl("atomic-variants"), OtherDecl, OtherDecl];
    var target := new Module(source);
    var collector := new Collector(DEFAULT_TAG);
    var calls := [AtomicCall(ToneProps("warm", warm)), AtomicCall(ToneProps("cool", cool))];
    collector.ApplyToModule(target, calls);
    ImportThenDecls(source);
    TwoToneMarkers("warm", warm, "cool", cool);
    body := target.body;
  }

  /** One import, then declarations: markers go at index 1. */
  lemma ImportThenDecls(body: seq<ModuleItem>)
    requires body == [ImportDecl("atomic-variants"), OtherDecl, OtherDecl]
    ensures FirstNonImport(body) == 1
  {
    assert body[1..][0] == OtherDecl;
  }

  /** Two calls one after the other record their markers in that order. */
  lemma TwoToneMarkers(k1: string, c1: string, k2: string, c2: string)
    ensures MarkersOf(DEFAULT_TAG, [AtomicCall(ToneProps(k1, c1)), AtomicCall(ToneProps(k2, c2))]) == [
      StrStmt(MarkerText(DEFAULT_TAG, Join(Prefixed(DEFAULT_SIZES, [c1]), " "))),
      StrStmt(MarkerText(DEFAULT_TAG, Join(Prefixed(DEFAULT_SIZES, [c2]), " ")))]
  {
    var one, two := AtomicCall(ToneProps(k1, c1)), AtomicCall(ToneProps(k2, c2));
    ToneMarker(k1, c1);
    ToneMarker(k2, c2);
    assert [one, two][1..] == [two];
    assert [two][1..] == [];
    assert MarkersOf(DEFAULT_TAG, [two]) == CallMarkers(DEFAULT_TAG, two) + MarkersOf(DEFAULT_TAG, []);
    assert MarkersOf(DEFAULT_TAG, [one, two]) == CallMarkers(DEFAULT_TAG, one) + MarkersOf(DEFAULT_TAG, [two]);
  }

  lemma OrangeGrid()
    ensures Prefixed(DEFAULT_SIZES, ["bg-orange-300"])
         == ["xs:bg-orange-300", "sm:bg-orange-300", "md:bg-orange-300", "lg:bg-orange-300", "xl:bg-orange-300", "2xl:bg-orange-300"]
  {
    OneClassGrid("bg-orange-300", "xs:bg-orange-300", "sm:bg-orange-300", "md:bg-orange-300",
      "lg:bg-orange-300", "xl:bg-orange-300", "2xl:bg-orange-300");
  }

  lemma SkyGrid()
    ensures Prefixed(DEFAULT_SIZES, ["bg-blue-300"])
         == ["xs:bg-blue-300", "sm:bg-blue-300", "md:bg-blue-300", "lg:bg-blue-300", "xl:bg-blue-300", "2xl:bg-blue-300"]
  {
    OneClassGrid("bg-blue-300", "xs:bg-blue-300", "sm:bg-blue-300", "md:bg-blue-300",
      "lg:bg-blue-300", "xl:bg-blue-300", "2xl:bg-blue-300");
  }
}
