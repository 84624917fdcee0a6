/**
 * What the class enumerator of packages/swc-plugin/src/lib.rs guarantees:
 * which string literals it reads, how the group map is built, how the
 * order of the argument's properties matters, and the shape of the
 * enumerated classes and of the marker.
 */
module SwcProperties {
  import opened Collections
  import opened JsText
  import opened SwcAst
  import opened SwcCollector

  // ---------------------------------------------------------------------
  // Group values

  /** A group's values are exactly its string-valued properties, whatever their keys. */
  lemma {:induction false} GroupValuesMembers(props: seq<PropOrSpread>, s: string)
    ensures |GroupValues(props)| <= |props|
    ensures s in GroupValues(props) <==> exists i :: 0 <= i < |props| && PropString(props[i]) == [s]
  {
    if props != [] {
      GroupValuesMembers(props[1..], s);
      var rest := GroupValues(props[1..]);
      assert GroupValues(props) == PropString(props[0]) + rest;
      if s in GroupValues(props) {
        if s in rest {
          var i :| 0 <= i < |props[1..]| && PropString(props[1..][i]) == [s];
          assert props[i + 1] == props[1..][i];
        } else {
          assert PropString(props[0]) == [s];
        }
      }
      if exists i :: 0 <= i < |props| && PropString(props[i]) == [s] {
        var i :| 0 <= i < |props| && PropString(props[i]) == [s];
        if i > 0 {
          assert props[1..][i - 1] == props[i];
        }
      }
    }
  }

  /** An array's strings are exactly its string-literal elements. */
  lemma {:induction false} StringElemsMembers(elems: seq<Option<ExprOrSpread>>, s: string)
    ensures |StringElems(elems)| <= |elems|
    ensures s in StringElems(elems) <==> exists i :: 0 <= i < |elems| && ElemString(elems[i]) == [s]
  {
    if elems != [] {
      StringElemsMembers(elems[1..], s);
      var rest := StringElems(elems[1..]);
      assert StringElems(elems) == ElemString(elems[0]) + rest;
      if s in StringElems(elems) {
        if s in rest {
          var i :| 0 <= i < |elems[1..]| && ElemString(elems[1..][i]) == [s];
          assert elems[i + 1] == elems[1..][i];
        } else {
          assert ElemString(elems[0]) == [s];
        }
      }
      if exists i :: 0 <= i < |elems| && ElemString(elems[i]) == [s] {
        var i :| 0 <= i < |elems| && ElemString(elems[i]) == [s];
        if i > 0 {
          assert elems[1..][i - 1] == elems[i];
        }
      }
    }
  }

  // ---------------------------------------------------------------------
  // The group map

  /** Reading a `variants` object spreads its group definitions into the map. */
  lemma {:induction false} AddGroupsIsAssign(m: Entries<seq<string>>, props: seq<PropOrSpread>)
    ensures AddGroups(m, props) == Assign(m, GroupDefs(props))
    decreases |props|
  {
    if props != [] {
      AddGroupsIsAssign(AddGroup(m, props[0]), props[1..]);
      var defs := GroupDefs(props);
      match GroupDef(props[0])
      case None =>
        assert defs == GroupDefs(props[1..]);
      case Some(d) =>
        assert defs == [d] + GroupDefs(props[1..]);
        assert defs[0] == d && defs[1..] == GroupDefs(props[1..]);
    }
  }

  /**
   * The map keeps the groups it held in place and appends the groups the
   * object newly defines, each once, in the order of their first definition.
   */
  lemma VariantMapKeys(m: Entries<seq<string>>, props: seq<PropOrSpread>)
    ensures Keys(AddGroups(m, props)) == Keys(m) + NewKeys(Keys(GroupDefs(props)), Keys(m))
    ensures forall k :: k in Keys(AddGroups(m, props)) <==> k in Keys(m) || k in Keys(GroupDefs(props))
    ensures Distinct(NewKeys(Keys(GroupDefs(props)), Keys(m)))
  {
    AddGroupsIsAssign(m, props);
    AssignKeys(m, GroupDefs(props));
    NewKeysDistinct(Keys(GroupDefs(props)), Keys(m));
  }

  lemma {:induction false} AddGroupsAppend(m: Entries<seq<string>>, xs: seq<PropOrSpread>, ys: seq<PropOrSpread>)
    ensures AddGroups(m, xs + ys) == AddGroups(AddGroups(m, xs), ys)
    decreases |xs|
  {
    if xs == [] {
      assert xs + ys == ys;
    } else {
      assert (xs + ys)[1..] == xs[1..] + ys;
      AddGroupsAppend(AddGroup(m, xs[0]), xs[1..], ys);
    }
  }

  /** When a group is defined twice, the later definition's values win. */
  lemma LaterGroupWins(m: Entries<seq<string>>, xs: seq<PropOrSpread>, p: PropOrSpread, k: string, vs: seq<string>)
    requires GroupDef(p) == Some((k, vs))
    ensures Get(AddGroups(m, xs + [p]), k) == Some(vs)
  {
    AddGroupsAppend(m, xs, [p]);
  }

  // ---------------------------------------------------------------------
  // The order of the argument's properties

  lemma {:induction false} ScanAppend(st: ScanState, xs: seq<PropOrSpread>, ys: seq<PropOrSpread>)
    ensures Scan(st, xs + ys) == Scan(Scan(st, xs), ys)
    decreases |xs|
  {
    if xs == [] {
      assert xs + ys == ys;
    } else {
      assert (xs + ys)[1..] == xs[1..] + ys;
      ScanAppend(Step(st, xs[0]), xs[1..], ys);
    }
  }

  /** `responsiveVariants: true`. */
  const ALL_RESPONSIVE: PropOrSpread := PropItem(KeyValue(IdentName("responsiveVariants"), BoolLit(true)))

  /** A property that sets the responsive groups: an array, or `true`. */
  predicate SetsResponsive(p: PropOrSpread) {
    p.PropItem? && p.prop.KeyValue? && p.prop.key == IdentName("responsiveVariants")
    && (p.prop.value.ArrayLit? || p.prop.value == BoolLit(true))
  }

  /** Any other property leaves the responsive groups as they are. */
  lemma {:induction false} ResponsiveKept(st: ScanState, props: seq<PropOrSpread>)
    requires forall i :: 0 <= i < |props| ==> !SetsResponsive(props[i])
    ensures Scan(st, props).responsive == st.responsive
    decreases |props|
  {
    if props != [] {
      assert !SetsResponsive(props[0]);
      assert Step(st, props[0]).responsive == st.responsive;
      ResponsiveKept(Step(st, props[0]), props[1..]);
    }
  }

  /**
   * `responsiveVariants: true` selects the groups defined by the properties
   * before it: a `variants` object that comes after it does not widen the
   * selection.
   */
  lemma AllResponsiveSeesEarlierGroups(pre: seq<PropOrSpread>, post: seq<PropOrSpread>)
    requires forall i :: 0 <= i < |post| ==> !SetsResponsive(post[i])
    ensures Scan(INITIAL, pre + [ALL_RESPONSIVE] + post).responsive == Some(Keys(Scan(INITIAL, pre).variantMap))
  {
    var st := Scan(INITIAL, pre);
    ScanAppend(INITIAL, pre + [ALL_RESPONSIVE], post);
    ScanAppend(INITIAL, pre, [ALL_RESPONSIVE]);
    ScanOne(st, ALL_RESPONSIVE);
    StepAllResponsive(st);
    ResponsiveKept(Scan(INITIAL, pre + [ALL_RESPONSIVE]), post);
  }

  lemma ScanOne(st: ScanState, p: PropOrSpread)
    ensures Scan(st, [p]) == Step(st, p)
  {
    assert [p][1..] == [];
  }

  lemma StepAllResponsive(st: ScanState)
    ensures Step(st, ALL_RESPONSIVE) == st.(responsive := Some(Keys(st.variantMap)))
  {
    assert "responsiveVariants" != "variants" by {
      assert |"responsiveVariants"| != |"variants"|;
    }
  }

  /** `variants: {...}` reads the group definitions of the object into the map. */
  lemma StepVariants(st: ScanState, props: seq<PropOrSpread>)
    ensures Step(st, PropItem(KeyValue(IdentName("variants"), ObjectLit(props))))
         == st.(variantMap := AddGroups(st.variantMap, props))
  {
  }

  /** `responsiveVariants: [...]` selects the array's string elements. */
  lemma StepResponsiveArray(st: ScanState, elems: seq<Option<ExprOrSpread>>)
    ensures Step(st, PropItem(KeyValue(IdentName("responsiveVariants"), ArrayLit(elems))))
         == st.(responsive := Some(StringElems(elems)))
  {
    assert "responsiveVariants" != "variants" by {
      assert |"responsiveVariants"| != |"variants"|;
    }
  }

  /** A property that sets the sizes: `responsiveSizes` with an array value. */
  predicate SetsSizes(p: PropOrSpread) {
    p.PropItem? && p.prop.KeyValue? && p.prop.key == IdentName("responsiveSizes") && p.prop.value.ArrayLit?
  }

  lemma {:induction false} SizesKept(st: ScanState, props: seq<PropOrSpread>)
    requires forall i :: 0 <= i < |props| ==> !SetsSizes(props[i])
    ensures Scan(st, props).sizes == st.sizes
    decreases |props|
  {
    if props != [] {
      assert !SetsSizes(props[0]);
      assert Step(st, props[0]).sizes == st.sizes;
      SizesKept(Step(st, props[0]), props[1..]);
    }
  }

  /** Without a `responsiveSizes` array the six default breakpoints are used. */
  lemma SizesDefault(props: seq<PropOrSpread>)
    requires forall i :: 0 <= i < |props| ==> !SetsSizes(props[i])
    ensures Scan(INITIAL, props).sizes == ["xs", "sm", "md", "lg", "xl", "2xl"]
  {
    SizesKept(INITIAL, props);
  }

  /**
   * The last `responsiveSizes` array replaces the sizes wholesale: its string
   * elements, in order, and nothing of the defaults.
   */
  lemma SizesReplaced(pre: seq<PropOrSpread>, elems: seq<Option<ExprOrSpread>>, post: seq<PropOrSpread>)
    requires forall i :: 0 <= i < |post| ==> !SetsSizes(post[i])
    ensures Scan(INITIAL, pre + [PropItem(KeyValue(IdentName("responsiveSizes"), ArrayLit(elems)))] + post).sizes
         == StringElems(elems)
  {
    var p := PropItem(KeyValue(IdentName("responsiveSizes"), ArrayLit(elems)));
    ScanAppend(INITIAL, pre + [p], post);
    ScanAppend(INITIAL, pre, [p]);
    ScanOne(Scan(INITIAL, pre), p);
    StepSizes(Scan(INITIAL, pre), elems);
    SizesKept(Scan(INITIAL, pre + [p]), post);
  }

  lemma StepSizes(st: ScanState, elems: seq<Option<ExprOrSpread>>)
    ensures Step(st, PropItem(KeyValue(IdentName("responsiveSizes"), ArrayLit(elems)))).sizes == StringElems(elems)
  {
    assert "responsiveSizes" != "variants" by {
      assert |"responsiveSizes"| != |"variants"|;
    }
    assert "responsiveSizes" != "responsiveVariants" by {
      assert "responsiveSizes"[10] != "responsiveVariants"[10];
    }
  }

  // ---------------------------------------------------------------------
  // Collection and prefixing

  /** A responsive name that is not a group contributes nothing. */
  lemma UnknownGroupSkipped(m: Entries<seq<string>>, name: string)
    requires name !in Keys(m)
    ensures GroupOf(m, name) == []
  {
    GetNone(m, name);
  }

  /** The collected classes are exactly the values of the named groups. */
  lemma {:induction false} CollectMembers(m: Entries<seq<string>>, names: seq<string>, c: string)
    ensures c in Collect(m, names) <==> exists i :: 0 <= i < |names| && c in GroupOf(m, names[i])
  {
    if names != [] {
      CollectMembers(m, names[1..], c);
      assert Collect(m, names) == GroupOf(m, names[0]) + Collect(m, names[1..]);
      if c in Collect(m, names[1..]) {
        var i :| 0 <= i < |names[1..]| && c in GroupOf(m, names[1..][i]);
        assert names[i + 1] == names[1..][i];
      }
      if exists i :: 0 <= i < |names| && c in GroupOf(m, names[i]) {
        var i :| 0 <= i < |names| && c in GroupOf(m, names[i]);
        if i > 0 {
          assert names[1..][i - 1] == names[i];
        }
      }
    }
  }

  /**
   * Prefixing enumerates the size/class grid size by size: one class per
   * pair, the `j`-th class behind the `i`-th size at `i * |classes| + j`.
   */
  lemma PrefixedAt(sizes: seq<string>, classes: seq<string>, i: nat, j: nat)
    requires i < |sizes| && j < |classes|
    ensures i * |classes| + j < |Prefixed(sizes, classes)|
    ensures Prefixed(sizes, classes)[i * |classes| + j] == sizes[i] + ":" + classes[j]
  {
    var before := Prefixed(sizes[..i], classes);
    var row := Row(sizes[i], classes);
    var after := Prefixed(sizes[i + 1..], classes);
    assert sizes == sizes[..i] + sizes[i..];
    PrefixedAppend(sizes[..i], sizes[i..], classes);
    assert sizes[i..][1..] == sizes[i + 1..];
    assert Prefixed(sizes, classes) == before + (row + after);
    PrefixedLength(sizes[..i], classes);
    assert (before + (row + after))[|before| + j] == row[j];
  }

  /** Prefixing distributes over the size list. */
  lemma {:induction false} PrefixedAppend(a: seq<string>, b: seq<string>, classes: seq<string>)
    ensures Prefixed(a + b, classes) == Prefixed(a, classes) + Prefixed(b, classes)
  {
    if a == [] {
      assert a + b == b;
    } else {
      assert (a + b)[1..] == a[1..] + b;
      PrefixedAppend(a[1..], b, classes);
      AppendAssoc(Row(a[0], classes), Prefixed(a[1..], classes), Prefixed(b, classes));
    }
  }

  lemma {:induction false} PrefixedLength(sizes: seq<string>, classes: seq<string>)
    ensures |Prefixed(sizes, classes)| == |sizes| * |classes|
  {
    if sizes != [] {
      PrefixedLength(sizes[1..], classes);
      assert |sizes| * |classes| == |classes| + |sizes[1..]| * |classes|;
    }
  }

  // ---------------------------------------------------------------------
  // Markers

  /**
   * A call records a marker exactly when it is an `atomic({...})` call whose
   * sizes and collected classes are both non-empty, and then only one.
   */
  lemma MarkerIff(tag: string, call: CallExpr)
    ensures |CallMarkers(tag, call)| <= 1
    ensures CallMarkers(tag, call) != [] <==>
      AtomicArg(call).Some? && Scan(INITIAL, AtomicArg(call).value).sizes != []
      && Collected(Scan(INITIAL, AtomicArg(call).value)) != []
  {
    if AtomicArg(call).Some? {
      var st := Scan(INITIAL, AtomicArg(call).value);
      PrefixedLength(st.sizes, Collected(st));
      if st.sizes != [] && Collected(st) != [] {
        assert |st.sizes| * |Collected(st)| > 0;
      }
    }
  }

  /** Only a call of the identifier `atomic` with an object first argument is looked at. */
  lemma NonAtomicCallIgnored(tag: string, call: CallExpr)
    requires call.callee != CalleeExpr(IdentRef("atomic")) || call.args == [] || !call.args[0].expr.ObjectLit?
    ensures CallMarkers(tag, call) == []
  {
  }

  /** Markers are recorded call by call, in the order of the traversal. */
  lemma {:induction false} MarkersOfAppend(tag: string, xs: seq<CallExpr>, ys: seq<CallExpr>)
    ensures MarkersOf(tag, xs + ys) == MarkersOf(tag, xs) + MarkersOf(tag, ys)
  {
    if xs == [] {
      assert xs + ys == ys;
    } else {
      assert (xs + ys)[1..] == xs[1..] + ys;
      MarkersOfAppend(tag, xs[1..], ys);
    }
  }
}
