/**
 * The swc plugin of packages/swc-plugin/src/lib.rs: for each `atomic({...})`
 * call it finds, it enumerates every class the responsive variants can
 * produce (one per responsive size, group value and size prefix) and records
 * them in a marker string statement, `TAG:classes` inside comment delimiters, that it then
 * inserts into the module body so that a class scanner sees those classes.
 *
 * Each loop of the plugin is a method proved against a function over the
 * syntax tree; the collector with its comment buffer is a class.
 */
module SwcCollector {
  import opened Collections
  import opened JsText
  import opened SwcAst

  /** The tag written into a marker when the plugin is not configured with one. */
  const DEFAULT_TAG: string := "__atomic_generated"

  /** The breakpoints a responsive class is prefixed with when none are given. */
  const DEFAULT_SIZES: seq<string> := ["xs", "sm", "md", "lg", "xl", "2xl"]

  // ---------------------------------------------------------------------
  // String literals of an object or array

  /** The string value of a `key: "..."` property (any key kind), if it is one. */
  function PropString(p: PropOrSpread): (r: seq<string>)
    ensures |r| <= 1
  {
    if p.PropItem? && p.prop.KeyValue? && p.prop.value.StrLit? then [p.prop.value.value] else []
  }

  /** The string values of an object's properties, in source order. */
  function GroupValues(props: seq<PropOrSpread>): seq<string> {
    if props == [] then [] else PropString(props[0]) + GroupValues(props[1..])
  }

  lemma GroupValuesFrom(props: seq<PropOrSpread>, i: nat)
    requires i < |props|
    ensures GroupValues(props[i..]) == PropString(props[i]) + GroupValues(props[i + 1..])
  {
    assert props[i..][1..] == props[i + 1..];
  }

  /** The loop of lib.rs that gathers the string values of one group. */
  method CollectGroupValues(props: seq<PropOrSpread>) returns (values: seq<string>)
    ensures values == GroupValues(props)
  {
    values := [];
    for i := 0 to |props|
      invariant values + GroupValues(props[i..]) == GroupValues(props)
    {
      GroupValuesFrom(props, i);
      var p := props[i];
      if p.PropItem? && p.prop.KeyValue? && p.prop.value.StrLit? {
        var found := [p.prop.value.value];
        AppendAssoc(values, found, GroupValues(props[i + 1..]));
        values := values + found;
      }
    }
    assert props[|props|..] == [];
  }

  /** The string value of an array element that is a string literal (spread or not). */
  function ElemString(e: Option<ExprOrSpread>): (r: seq<string>)
    ensures |r| <= 1
  {
    if e.Some? && e.value.expr.StrLit? then [e.value.expr.value] else []
  }

  /** The string literals of an array, in order; holes and other elements are skipped. */
  function StringElems(elems: seq<Option<ExprOrSpread>>): seq<string> {
    if elems == [] then [] else ElemString(elems[0]) + StringElems(elems[1..])
  }

  lemma StringElemsFrom(elems: seq<Option<ExprOrSpread>>, i: nat)
    requires i < |elems|
    ensures StringElems(elems[i..]) == ElemString(elems[i]) + StringElems(elems[i + 1..])
  {
    assert elems[i..][1..] == elems[i + 1..];
  }

  /** The loops of lib.rs that read `responsiveVariants` and `responsiveSizes` arrays. */
  method CollectStrings(elems: seq<Option<ExprOrSpread>>) returns (out: seq<string>)
    ensures out == StringElems(elems)
  {
    out := [];
    for i := 0 to |elems|
      invariant out + StringElems(elems[i..]) == StringElems(elems)
    {
      StringElemsFrom(elems, i);
      var e := elems[i];
      if e.Some? && e.value.expr.StrLit? {
        var found := [e.value.expr.value];
        AppendAssoc(out, found, StringElems(elems[i + 1..]));
        out := out + found;
      }
    }
    assert elems[|elems|..] == [];
  }

  // ---------------------------------------------------------------------
  // The `variants` object

  /** A group definition `name: { ... }` with an identifier key and an object value. */
  function GroupDef(p: PropOrSpread): Option<(string, seq<string>)> {
    if p.PropItem? && p.prop.KeyValue? && p.prop.key.IdentName? && p.prop.value.ObjectLit?
    then Some((p.prop.key.sym, GroupValues(p.prop.value.props)))
    else None
  }

  /** The group definitions of a `variants` object, in source order. */
  function GroupDefs(props: seq<PropOrSpread>): (r: Entries<seq<string>>)
    ensures |r| <= |props|
  {
    if props == [] then []
    else (match GroupDef(props[0]) case Some(d) => [d] case None => []) + GroupDefs(props[1..])
  }

  /** One step of the `variants` loop: a group definition is inserted into the map. */
  function AddGroup(m: Entries<seq<string>>, p: PropOrSpread): Entries<seq<string>> {
    match GroupDef(p)
    case Some(d) => Put(m, d.0, d.1)
    case None => m
  }

  /** The `variants` loop of lib.rs, as a left fold over the properties. */
  function AddGroups(m: Entries<seq<string>>, props: seq<PropOrSpread>): Entries<seq<string>>
    decreases |props|
  {
    if props == [] then m else AddGroups(AddGroup(m, props[0]), props[1..])
  }

  /** The loop of lib.rs over a `variants` object. */
  method InsertGroups(m: Entries<seq<string>>, props: seq<PropOrSpread>) returns (r: Entries<seq<string>>)
    ensures r == AddGroups(m, props)
  {
    r := m;
    for i := 0 to |props|
      invariant AddGroups(r, props[i..]) == AddGroups(m, props)
    {
      assert props[i..][1..] == props[i + 1..];
      var p := props[i];
      if p.PropItem? && p.prop.KeyValue? && p.prop.key.IdentName? && p.prop.value.ObjectLit? {
        var values := CollectGroupValues(p.prop.value.props);
        r := Put(r, p.prop.key.sym, values);
      }
    }
  }

  // ---------------------------------------------------------------------
  // The scan over the argument's properties

  /**
   * The locals of the property loop: the group map (an `IndexMap`), the
   * responsive group names once set, and the responsive sizes.
   */
  datatype ScanState = ScanState(variantMap: Entries<seq<string>>, responsive: Option<seq<string>>, sizes: seq<string>)

  const INITIAL: ScanState := ScanState([], None, DEFAULT_SIZES)

  /** One property of the argument object; only identifier keys are looked at. */
  function Step(st: ScanState, p: PropOrSpread): ScanState {
    if !(p.PropItem? && p.prop.KeyValue? && p.prop.key.IdentName?) then st
    else
      var key, v := p.prop.key.sym, p.prop.value;
      if key == "variants" then
        if v.ObjectLit? then st.(variantMap := AddGroups(st.variantMap, v.props)) else st
      else if key == "responsiveVariants" then
        if v.ArrayLit? then st.(responsive := Some(StringElems(v.elems)))
        else if v == BoolLit(true) then st.(responsive := Some(Keys(st.variantMap)))
        else st
      else if key == "responsiveSizes" then
        if v.ArrayLit? then st.(sizes := StringElems(v.elems)) else st
      else st
  }

  /** The property loop, as a left fold. */
  function Scan(st: ScanState, props: seq<PropOrSpread>): ScanState
    decreases |props|
  {
    if props == [] then st else Scan(Step(st, props[0]), props[1..])
  }

  /** The body of the property loop. */
  method StepProp(st: ScanState, p: PropOrSpread) returns (r: ScanState)
    ensures r == Step(st, p)
  {
    r := st;
    if p.PropItem? && p.prop.KeyValue? && p.prop.key.IdentName? {
      var v := p.prop.value;
      match p.prop.key.sym {
        case "variants" =>
          if v.ObjectLit? {
            var m := InsertGroups(st.variantMap, v.props);
            r := st.(variantMap := m);
          }
        case "responsiveVariants" =>
          if v.ArrayLit? {
            var names := CollectStrings(v.elems);
            r := st.(responsive := Some(names));
          } else if v.BoolLit? && v.b {
            r := st.(responsive := Some(Keys(st.variantMap)));
          }
        case "responsiveSizes" =>
          if v.ArrayLit? {
            var sizes := CollectStrings(v.elems);
            r := st.(sizes := sizes);
          }
        case _ =>
      }
    }
  }

  /** The property loop of lib.rs. */
  method ScanProps(props: seq<PropOrSpread>) returns (st: ScanState)
    ensures st == Scan(INITIAL, props)
  {
    st := INITIAL;
    for i := 0 to |props|
      invariant Scan(st, props[i..]) == Scan(INITIAL, props)
    {
      assert props[i..][1..] == props[i + 1..];
      st := StepProp(st, props[i]);
    }
  }

  // ---------------------------------------------------------------------
  // Collection and prefixing

  /** The values of the named group; nothing when there is no such group. */
  function GroupOf(m: Entries<seq<string>>, name: string): seq<string> {
    match Get(m, name) case Some(vs) => vs case None => []
  }

  /** The values of the named groups, in the order of the names. */
  function Collect(m: Entries<seq<string>>, names: seq<string>): seq<string> {
    if names == [] then [] else GroupOf(m, names[0]) + Collect(m, names[1..])
  }

  lemma CollectFrom(m: Entries<seq<string>>, names: seq<string>, i: nat)
    requires i < |names|
    ensures Collect(m, names[i..]) == GroupOf(m, names[i]) + Collect(m, names[i + 1..])
  {
    assert names[i..][1..] == names[i + 1..];
  }

  /** The classes to prefix: nothing unless responsive groups were named. */
  function Collected(st: ScanState): seq<string> {
    if st.responsive.Some? then Collect(st.variantMap, st.responsive.value) else []
  }

  /** The collection loop of lib.rs. */
  method CollectClasses(st: ScanState) returns (collected: seq<string>)
    ensures collected == Collected(st)
  {
    collected := [];
    if st.responsive.Some? {
      var names := st.responsive.value;
      for i := 0 to |names|
        invariant collected + Collect(st.variantMap, names[i..]) == Collect(st.variantMap, names)
      {
        CollectFrom(st.variantMap, names, i);
        var vals := Get(st.variantMap, names[i]);
        if vals.Some? {
          AppendAssoc(collected, vals.value, Collect(st.variantMap, names[i + 1..]));
          collected := collected + vals.value;
        }
      }
      assert names[|names|..] == [];
    }
  }

  /** `format!("{}:{}", size, class)`. */
  function Prefix(size: string, cls: string): string {
    size + ":" + cls
  }

  /** Every class behind one size prefix. */
  function Row(size: string, classes: seq<string>): (r: seq<string>)
    ensures |r| == |classes|
    ensures forall j :: 0 <= j < |classes| ==> r[j] == Prefix(size, classes[j])
  {
    if classes == [] then [] else [Prefix(size, classes[0])] + Row(size, classes[1..])
  }

  /** Every class behind every size prefix, size by size. */
  function Prefixed(sizes: seq<string>, classes: seq<string>): seq<string> {
    if sizes == [] then [] else Row(sizes[0], classes) + Prefixed(sizes[1..], classes)
  }

  /** The inner prefixing loop of lib.rs. */
  method PushRow(out: seq<string>, size: string, classes: seq<string>) returns (r: seq<string>)
    ensures r == out + Row(size, classes)
  {
    r := out;
    for j := 0 to |classes|
      invariant r + Row(size, classes[j..]) == out + Row(size, classes)
    {
      assert classes[j..][1..] == classes[j + 1..];
      AppendAssoc(r, [Prefix(size, classes[j])], Row(size, classes[j + 1..]));
      r := r + [Prefix(size, classes[j])];
    }
    assert classes[|classes|..] == [];
  }

  /** The outer prefixing loop of lib.rs. */
  method PrefixAll(sizes: seq<string>, classes: seq<string>) returns (prefixed: seq<string>)
    ensures prefixed == Prefixed(sizes, classes)
  {
    prefixed := [];
    for i := 0 to |sizes|
      invariant prefixed + Prefixed(sizes[i..], classes) == Prefixed(sizes, classes)
    {
      assert sizes[i..][1..] == sizes[i + 1..];
      AppendAssoc(prefixed, Row(sizes[i], classes), Prefixed(sizes[i + 1..], classes));
      prefixed := PushRow(prefixed, sizes[i], classes);
    }
    assert sizes[|sizes|..] == [];
  }

  // ---------------------------------------------------------------------
  // Markers

  /** The text of a marker: `format!("/* {}:{} */", tag, classes)`. */
  function MarkerText(tag: string, classes: string): string {
    "/* " + tag + ":" + classes + " */"
  }

  /** The object passed as the first argument of a call to the identifier `atomic`, if it is one. */
  function AtomicArg(call: CallExpr): Option<seq<PropOrSpread>> {
    if call.callee == CalleeExpr(IdentRef("atomic")) && call.args != [] && call.args[0].expr.ObjectLit?
    then Some(call.args[0].expr.props)
    else None
  }

  /** The classes a call enumerates: empty unless it is an `atomic({...})` call. */
  function CallClasses(call: CallExpr): seq<string> {
    match AtomicArg(call)
    case None => []
    case Some(props) =>
      var st := Scan(INITIAL, props);
      Prefixed(st.sizes, Collected(st))
  }

  /** The marker statements `visit_mut_call_expr` records for one call: at most one. */
  function CallMarkers(tag: string, call: CallExpr): seq<ModuleItem> {
    var classes := CallClasses(call);
    if classes == [] then [] else [StrStmt(MarkerText(tag, Join(classes, " ")))]
  }

  /** The markers recorded for the calls a traversal visits, in visiting order. */
  function MarkersOf(tag: string, calls: seq<CallExpr>): seq<ModuleItem> {
    if calls == [] then [] else CallMarkers(tag, calls[0]) + MarkersOf(tag, calls[1..])
  }

  /**
   * The position `apply_to_module` inserts at: the first item that is not an
   * import declaration, or the end of the body.
   */
  function FirstNonImport(body: seq<ModuleItem>): (idx: nat)
    ensures idx <= |body|
    ensures forall i :: 0 <= i < idx ==> body[i].ImportDecl?
    ensures idx < |body| ==> !body[idx].ImportDecl?
  {
    if body == [] || !body[0].ImportDecl? then 0 else 1 + FirstNonImport(body[1..])
  }

  /** The plugin's tag: the configured `tag` string if there is one, else the default. */
  function PluginTag(configTag: Option<string>): string {
    if configTag.Some? then configTag.value else DEFAULT_TAG
  }

  // ---------------------------------------------------------------------
  // The module and the collector

  /** Inserting `items[k]` at the seam puts it in front of the later items. */
  lemma InsertShift(front: seq<ModuleItem>, items: seq<ModuleItem>, k: nat, back: seq<ModuleItem>,
                    before: seq<ModuleItem>, after: seq<ModuleItem>)
    requires k < |items|
    requires before == front + items[k + 1..] + back
    requires after == before[..|front|] + [items[k]] + before[|front|..]
    ensures after == front + items[k..] + back
  {
    assert before[..|front|] == front;
    assert before[|front|..] == items[k + 1..] + back;
    assert items[k..] == [items[k]] + items[k + 1..];
  }

  /** A module: its top-level items, changed in place by insertion. */
  class Module {
    var body: seq<ModuleItem>

    constructor(body: seq<ModuleItem>)
      ensures this.body == body
    {
      this.body := body;
    }

    /** `Vec::insert`: shifts the items from `index` on one place right. */
    method Insert(index: nat, item: ModuleItem)
      requires index <= |body|
      modifies this
      ensures body == old(body)[..index] + [item] + old(body)[index..]
    {
      body := body[..index] + [item] + body[index..];
    }

    /**
     * Inserts `items` at `index` one by one, last item first, so that they
     * end up in their own order.
     */
    method InsertAll(index: nat, items: seq<ModuleItem>)
      requires index <= |body|
      modifies this
      ensures body == old(body)[..index] + items + old(body)[index..]
    {
      var k := |items|;
      while k > 0
        invariant 0 <= k <= |items|
        invariant body == old(body)[..index] + items[k..] + old(body)[index..]
      {
        k := k - 1;
        ghost var before := body;
        Insert(index, items[k]);
        InsertShift(old(body)[..index], items, k, old(body)[index..], before, body);
      }
    }
  }

  /** `AtomicVariantsCollector`: the markers recorded so far, and the tag. */
  class Collector {
    var comments: seq<ModuleItem>
    const tag: string

    constructor(tag: string)
      ensures this.tag == tag && comments == []
    {
      this.tag := tag;
      comments := [];
    }

    /** `visit_mut_call_expr`: records the call's marker, if it has one. */
    method VisitCallExpr(call: CallExpr)
      modifies this
      ensures comments == old(comments) + CallMarkers(tag, call)
    {
      if call.callee == CalleeExpr(IdentRef("atomic")) && call.args != [] && call.args[0].expr.ObjectLit? {
        var st := ScanProps(call.args[0].expr.props);
        var collected := CollectClasses(st);
        var prefixed := PrefixAll(st.sizes, collected);
        if prefixed != [] {
          comments := comments + [StrStmt(MarkerText(tag, Join(prefixed, " ")))];
        }
      }
    }

    /**
     * The traversal of a module: `calls` are the call expressions the visitor
     * reaches, in order.
     */
    method VisitCalls(calls: seq<CallExpr>)
      modifies this
      ensures comments == old(comments) + MarkersOf(tag, calls)
    {
      for i := 0 to |calls|
        invariant comments + MarkersOf(tag, calls[i..]) == old(comments) + MarkersOf(tag, calls)
      {
        assert calls[i..][1..] == calls[i + 1..];
        ghost var rest := MarkersOf(tag, calls[i + 1..]);
        ghost var before := comments;
        VisitCallExpr(calls[i]);
        AppendAssoc(before, CallMarkers(tag, calls[i]), rest);
      }
      assert calls[|calls|..] == [];
    }

    /**
     * `apply_to_module`: visits the module, then inserts every recorded
     * marker, in recording order, just after the leading imports, and
     * empties the buffer.
     */
    method ApplyToModule(target: Module, calls: seq<CallExpr>)
      modifies this, target
      ensures comments == []
      ensures var idx := FirstNonImport(old(target.body));
        target.body == old(target.body)[..idx] + old(comments) + MarkersOf(tag, calls) + old(target.body)[idx..]
    {
      VisitCalls(calls);
      assert comments == old(comments) + MarkersOf(tag, calls);
      assert target.body == old(target.body);
      var idx := FirstNonImport(target.body);
      target.InsertAll(idx, comments);
      comments := [];
    }
  }

  /**
   * The plugin entry point `process` on a module: collects with the
   * configured tag and inserts the markers, in recording order, at the very
   * top of the body.
   */
  method Process(target: Module, calls: seq<CallExpr>, configTag: Option<string>)
    modifies target
    ensures target.body == MarkersOf(PluginTag(configTag), calls) + old(target.body)
  {
    var tag := PluginTag(configTag);
    var collector := new Collector(tag);
    collector.VisitCalls(calls);
    assert collector.comments == MarkersOf(tag, calls);
    assert target.body == old(target.body);
    target.InsertAll(0, collector.comments);
    assert old(target.body)[..0] == [];
  }
}
