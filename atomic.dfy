/**
 * The class-composition resolver returned by the `atomic` factory.
 *
 * A factory call fixes the options (base, override, the table of variant
 * groups, default selections and the responsive mode); the resolver it
 * returns turns one selection object into a single class string. The
 * resolver builds a list of class tokens (base, then variant fragments in
 * merged-selection order, then override, then className), joins it with
 * single spaces, trims it and hands it to the process-wide `finalize` hook,
 * which is a parameter here.
 */
module Atomic {
  import opened Collections
  import opened JsText

  /** A JavaScript value as it can appear in a selection object. */
  datatype Value =
    | Undefined
    | Str(s: string)
    | Bool(b: bool)
    | Obj(entries: Entries<Value>)

  /** The property key a value is converted to in `table[value]`. */
  function PropertyKey(v: Value): string {
    match v
    case Undefined => "undefined"
    case Str(s) => s
    case Bool(b) => if b then "true" else "false"
    case Obj(_) => "[object Object]"
  }

  /** JavaScript truthiness. */
  predicate Truthy(v: Value) {
    match v
    case Undefined => false
    case Str(s) => s != ""
    case Bool(b) => b
    case Obj(_) => true
  }

  /** One variant group: variant value -> class fragment. */
  type GroupTable = map<string, string>

  /**
   * Variant group name -> group. The resolver only looks groups and
   * fragments up by key, so their order plays no part.
   */
  type VariantTable = map<string, GroupTable>

  /** The `responsiveVariants` option: a boolean, or the list of eligible groups. */
  datatype Responsive = Flag(on: bool) | Groups(names: seq<string>)

  /** The argument of the factory; `None` stands for a property left out. */
  datatype Options = Options(
    base: Option<string>,
    override: Option<string>,
    variants: Option<VariantTable>,
    defaultVariants: Option<Entries<Value>>,
    responsiveVariants: Option<Responsive>)

  /** `base` defaults to the empty string. */
  function BaseOf(o: Options): string {
    match o.base
    case Some(b) => b
    case None => ""
  }

  /** Spreading an absent `defaultVariants` adds nothing. */
  function DefaultsOf(o: Options): Entries<Value> {
    match o.defaultVariants
    case Some(d) => d
    case None => []
  }

  /** Whether a group may take a per-breakpoint object. */
  predicate IsResponsiveVariant(rv: Option<Responsive>, key: string) {
    match rv
    case Some(Groups(names)) => key in names
    case Some(Flag(on)) => on
    case None => false
  }

  /** The `className` property of the argument (undefined when absent). */
  function ClassNameOf(arg: Entries<Value>): Value {
    match Get(arg, "className")
    case Some(v) => v
    case None => Undefined
  }

  /**
   * The rest of the argument without `className`, with every
   * `undefined`-valued entry dropped, in the argument's order.
   */
  function ParamVariants(arg: Entries<Value>): (r: Entries<Value>)
    ensures forall e :: e in r <==> e in arg && e.0 != "className" && e.1 != Undefined
    ensures |r| <= |arg|
  {
    if arg == [] then []
    else if arg[0].0 == "className" || arg[0].1 == Undefined then ParamVariants(arg[1..])
    else [arg[0]] + ParamVariants(arg[1..])
  }

  /** `{...defaultVariants, ...filteredParamVariants}`. */
  function Merged(o: Options, arg: Entries<Value>): Entries<Value> {
    Assign(DefaultsOf(o), ParamVariants(arg))
  }

  /**
   * The token one breakpoint entry pushes. A fragment that the table lacks
   * is `undefined`: unprefixed it joins as the empty string, prefixed it is
   * formatted as the text "undefined".
   */
  function BreakpointToken(table: GroupTable, bp: (string, Value)): string {
    var key := PropertyKey(bp.1);
    if bp.0 == "xs" then
      if key in table then table[key] else ""
    else
      bp.0 + ":" + if key in table then table[key] else "undefined"
  }

  /** The tokens of a per-breakpoint object, in the object's order. */
  function BreakpointTokens(table: GroupTable, bps: Entries<Value>): seq<string> {
    if bps == [] then [] else [BreakpointToken(table, bps[0])] + BreakpointTokens(table, bps[1..])
  }

  /** The tokens one merged `(group, value)` entry contributes. */
  function EntryTokens(variants: VariantTable, rv: Option<Responsive>, entry: (string, Value)): seq<string> {
    if entry.0 !in variants then []
    else if entry.1.Obj? && IsResponsiveVariant(rv, entry.0) then
      BreakpointTokens(variants[entry.0], entry.1.entries)
    else
      var key := PropertyKey(entry.1);
      if key in variants[entry.0] && variants[entry.0][key] != "" then [variants[entry.0][key]] else []
  }

  /** The tokens of all merged entries, in merged order. */
  function VariantTokens(variants: VariantTable, rv: Option<Responsive>, merged: Entries<Value>): seq<string> {
    if merged == [] then [] else EntryTokens(variants, rv, merged[0]) + VariantTokens(variants, rv, merged[1..])
  }

  function OverrideTokens(o: Options): seq<string> {
    match o.override
    case Some(s) => if s != "" then [s] else []
    case None => []
  }

  function ClassNameTokens(arg: Entries<Value>): seq<string> {
    var c := ClassNameOf(arg);
    if Truthy(c) then [PropertyKey(c)] else []
  }

  /** The whole token list of a resolution when the options carry `variants`. */
  function ClassList(o: Options, variants: VariantTable, arg: Entries<Value>): seq<string> {
    [BaseOf(o)] + VariantTokens(variants, o.responsiveVariants, Merged(o, arg))
      + OverrideTokens(o) + ClassNameTokens(arg)
  }

  /** What the resolver returns for the argument object `arg`. */
  function ResolvedClassName(o: Options, finalize: string -> string, arg: Entries<Value>): string {
    match o.variants
    case None => Trim(Join([BaseOf(o)], " "))
    case Some(variants) => finalize(Trim(Join(ClassList(o, variants, arg), " ")))
  }

  lemma {:induction false} VariantTokensSnoc(variants: VariantTable, rv: Option<Responsive>, m: Entries<Value>, e: (string, Value))
    ensures VariantTokens(variants, rv, m + [e]) == VariantTokens(variants, rv, m) + EntryTokens(variants, rv, e)
  {
    if m == [] {
      assert [e][1..] == [];
    } else {
      assert (m + [e])[1..] == m[1..] + [e];
      VariantTokensSnoc(variants, rv, m[1..], e);
    }
  }

  /** The tokens of a suffix: those of its first entry, then the rest. */
  lemma VariantTokensFrom(variants: VariantTable, rv: Option<Responsive>, m: Entries<Value>, i: nat)
    requires i < |m|
    ensures VariantTokens(variants, rv, m[i..]) == EntryTokens(variants, rv, m[i]) + VariantTokens(variants, rv, m[i + 1..])
  {
    assert m[i..][1..] == m[i + 1..];
  }

  lemma BreakpointTokensFrom(table: GroupTable, bps: Entries<Value>, j: nat)
    requires j < |bps|
    ensures BreakpointTokens(table, bps[j..]) == [BreakpointToken(table, bps[j])] + BreakpointTokens(table, bps[j + 1..])
  {
    assert bps[j..][1..] == bps[j + 1..];
  }

  /** The inner loop of the resolver over a per-breakpoint object. */
  method PushBreakpoints(classes: seq<string>, table: GroupTable, bps: Entries<Value>) returns (out: seq<string>)
    ensures out == classes + BreakpointTokens(table, bps)
  {
    out := classes;
    for j := 0 to |bps|
      invariant out + BreakpointTokens(table, bps[j..]) == classes + BreakpointTokens(table, bps)
    {
      var (size, resVariant) := bps[j];
      BreakpointTokensFrom(table, bps, j);
      AppendAssoc(out, [BreakpointToken(table, bps[j])], BreakpointTokens(table, bps[j + 1..]));
      var key := PropertyKey(resVariant);
      if size == "xs" {
        out := out + [if key in table then table[key] else ""];
      } else {
        out := out + [size + ":" + if key in table then table[key] else "undefined"];
      }
    }
  }

  /** One iteration of the resolver's loop: the tokens of one merged entry. */
  method PushEntry(classes: seq<string>, variants: VariantTable, rv: Option<Responsive>, entry: (string, Value))
    returns (out: seq<string>)
    ensures out == classes + EntryTokens(variants, rv, entry)
  {
    var (key, variant) := entry;
    out := classes;
    if key !in variants {
      return;
    }
    if variant.Obj? && IsResponsiveVariant(rv, key) {
      out := PushBreakpoints(out, variants[key], variant.entries);
      return;
    }
    var table := variants[key];
    var fragmentKey := PropertyKey(variant);
    if fragmentKey in table && table[fragmentKey] != "" {
      out := out + [table[fragmentKey]];
    }
  }

  /** The resolver's loop over the merged selection. */
  method PushVariants(classes: seq<string>, variants: VariantTable, rv: Option<Responsive>, merged: Entries<Value>)
    returns (out: seq<string>)
    ensures out == classes + VariantTokens(variants, rv, merged)
  {
    out := classes;
    for i := 0 to |merged|
      invariant out + VariantTokens(variants, rv, merged[i..]) == classes + VariantTokens(variants, rv, merged)
    {
      VariantTokensFrom(variants, rv, merged, i);
      AppendAssoc(out, EntryTokens(variants, rv, merged[i]), VariantTokens(variants, rv, merged[i + 1..]));
      out := PushEntry(out, variants, rv, merged[i]);
    }
  }

  /**
   * The resolver: pushes base, the tokens of the merged selection, override
   * and className onto a local list, and finalizes the joined, trimmed list.
   * Without `variants` it returns early and skips `finalize`.
   */
  method Resolve(o: Options, finalize: string -> string, arg: Entries<Value>) returns (r: string)
    ensures r == ResolvedClassName(o, finalize, arg)
  {
    var className := ClassNameOf(arg);
    var classes: seq<string> := [BaseOf(o)];
    var filtered := ParamVariants(arg);
    if o.variants.None? {
      return Trim(Join(classes, " "));
    }
    var variants := o.variants.value;
    classes := PushVariants(classes, variants, o.responsiveVariants, Assign(DefaultsOf(o), filtered));
    if o.override.Some? && o.override.value != "" {
      classes := classes + [o.override.value];
    }
    if Truthy(className) {
      classes := classes + [PropertyKey(className)];
    }
    assert classes == ClassList(o, variants, arg);
    return finalize(Trim(Join(classes, " ")));
  }

  // ---------------------------------------------------------------------
  // Properties of the resolver

  /** Without `variants` the resolver is constant: trimmed base, no finalize. */
  lemma NoVariantsIsTrimmedBase(o: Options, f: string -> string, g: string -> string, a: Entries<Value>, b: Entries<Value>)
    requires o.variants.None?
    ensures ResolvedClassName(o, f, a) == Trim(BaseOf(o))
    ensures ResolvedClassName(o, f, a) == ResolvedClassName(o, g, b)
  {
  }

  /** With `variants`, the hook is applied exactly once, to the plain result. */
  lemma FinalizeAppliedOnce(o: Options, f: string -> string, arg: Entries<Value>)
    requires o.variants.Some?
    ensures ResolvedClassName(o, f, arg) == f(ResolvedClassName(o, s => s, arg))
  {
  }

  /**
   * Token order: base first, then the variant tokens, then override when
   * non-empty, then className when truthy, last.
   */
  lemma ClassListOrder(o: Options, variants: VariantTable, arg: Entries<Value>)
    ensures var r := ClassList(o, variants, arg);
      var v := VariantTokens(variants, o.responsiveVariants, Merged(o, arg));
      && |r| == 1 + |v| + |OverrideTokens(o)| + |ClassNameTokens(arg)|
      && r[0] == BaseOf(o)
      && r[1..1 + |v|] == v
      && (o.override.Some? && o.override.value != "" ==> r[1 + |v|] == o.override.value)
      && (Truthy(ClassNameOf(arg)) ==> r[|r| - 1] == PropertyKey(ClassNameOf(arg)))
      && (!Truthy(ClassNameOf(arg)) && (o.override.None? || o.override.value == "") ==> |r| == 1 + |v|)
  {
    var r := ClassList(o, variants, arg);
    var v := VariantTokens(variants, o.responsiveVariants, Merged(o, arg));
    assert r == [BaseOf(o)] + v + OverrideTokens(o) + ClassNameTokens(arg);
    assert r[1..1 + |v|] == v;
  }

  lemma {:induction false} ParamVariantsUnique(arg: Entries<Value>)
    requires UniqueKeys(arg)
    ensures UniqueKeys(ParamVariants(arg))
  {
    if arg != [] {
      assert UniqueKeys(arg[1..]) by {
        forall i, j | 0 <= i < j < |arg[1..]| ensures arg[1..][i].0 != arg[1..][j].0 {
          assert arg[1..][i] == arg[i + 1] && arg[1..][j] == arg[j + 1];
        }
      }
      ParamVariantsUnique(arg[1..]);
      var rest := ParamVariants(arg[1..]);
      forall i | 0 <= i < |rest| ensures rest[i].0 != arg[0].0 {
        assert rest[i] in arg[1..];
        var j :| 0 <= j < |arg[1..]| && arg[1..][j] == rest[i];
        assert arg[j + 1] == rest[i];
      }
    }
  }

  /**
   * Merge precedence: a defined call-time value for a group wins over the
   * default; an absent or `undefined` call-time value leaves the default.
   */
  lemma MergedPrecedence(o: Options, arg: Entries<Value>, k: string)
    requires UniqueKeys(arg)
    requires k != "className"
    ensures Get(arg, k).Some? && Get(arg, k).value != Undefined ==> Get(Merged(o, arg), k) == Get(arg, k)
    ensures Get(arg, k).None? || Get(arg, k).value == Undefined ==> Get(Merged(o, arg), k) == Get(DefaultsOf(o), k)
  {
    var p := ParamVariants(arg);
    ParamVariantsUnique(arg);
    GetNone(arg, k);
    GetNone(p, k);
    match Get(arg, k)
    case Some(v) =>
      if v != Undefined {
        assert (k, v) in p;
        assert k in Keys(p) by {
          var j :| 0 <= j < |p| && p[j] == (k, v);
          assert Keys(p)[j] == k;
        }
        AssignGet(DefaultsOf(o), p, k);
        GetUnique(p, k, v);
      } else {
        forall i | 0 <= i < |p| ensures p[i].0 != k {
          assert p[i] in p;
          GetUnique(arg, p[i].0, p[i].1);
        }
      }
    case None =>
      assert k !in Keys(p);
  }

  /**
   * Iteration order: the default groups first, in their order, then the
   * groups only the call names, each once, in the call's order.
   */
  lemma MergedKeys(o: Options, arg: Entries<Value>)
    ensures Keys(Merged(o, arg)) == Keys(DefaultsOf(o)) + NewKeys(Keys(ParamVariants(arg)), Keys(DefaultsOf(o)))
    ensures forall k :: k in Keys(Merged(o, arg)) <==> k in Keys(DefaultsOf(o)) || k in Keys(ParamVariants(arg))
    ensures Distinct(NewKeys(Keys(ParamVariants(arg)), Keys(DefaultsOf(o))))
    ensures UniqueKeys(arg) && (forall k :: k in Keys(arg) ==> k !in Keys(DefaultsOf(o))) ==>
      Keys(Merged(o, arg)) == Keys(DefaultsOf(o)) + Keys(ParamVariants(arg))
  {
    var d := Keys(DefaultsOf(o));
    var p := ParamVariants(arg);
    AssignKeys(DefaultsOf(o), p);
    NewKeysDistinct(Keys(p), d);
    if UniqueKeys(arg) && (forall k :: k in Keys(arg) ==> k !in d) {
      ParamVariantsUnique(arg);
      forall k | k in Keys(p) ensures k !in d {
        var i :| 0 <= i < |Keys(p)| && Keys(p)[i] == k;
        assert p[i] in arg;
        var j :| 0 <= j < |arg| && arg[j] == p[i];
        assert Keys(arg)[j] == k;
      }
      NewKeysFresh(Keys(p), d);
    }
  }

  lemma {:induction false} ParamVariantsSnoc(arg: Entries<Value>, k: string, v: Value)
    requires k != "className"
    ensures ParamVariants(arg + [(k, v)]) == ParamVariants(arg) + if v != Undefined then [(k, v)] else []
  {
    if arg == [] {
      assert arg + [(k, v)] == [(k, v)];
    } else {
      assert (arg + [(k, v)])[1..] == arg[1..] + [(k, v)];
      ParamVariantsSnoc(arg[1..], k, v);
    }
  }

  lemma {:induction false} VariantTokensPutUnknown(variants: VariantTable, rv: Option<Responsive>, m: Entries<Value>, k: string, v: Value)
    requires k !in variants
    ensures VariantTokens(variants, rv, Put(m, k, v)) == VariantTokens(variants, rv, m)
  {
    if m == [] {
      assert EntryTokens(variants, rv, (k, v)) == [];
      assert [(k, v)][1..] == [];
      assert VariantTokens(variants, rv, [(k, v)]) == EntryTokens(variants, rv, (k, v)) + VariantTokens(variants, rv, []);
    } else if m[0].0 == k {
      assert Put(m, k, v)[1..] == m[1..];
    } else {
      assert Put(m, k, v)[1..] == Put(m[1..], k, v);
      VariantTokensPutUnknown(variants, rv, m[1..], k, v);
    }
  }

  /**
   * A property whose name is not a variant group (such as a `xClassName`
   * pass-through) never changes the result.
   */
  lemma UnknownGroupIgnored(o: Options, f: string -> string, arg: Entries<Value>, k: string, v: Value)
    requires o.variants.Some? && k !in o.variants.value
    requires k != "className" && k !in Keys(arg)
    ensures ResolvedClassName(o, f, arg + [(k, v)]) == ResolvedClassName(o, f, arg)
  {
    GetSnoc(arg, k, v, "className");
    MergedTokensUnknown(o, arg, k, v);
    assert ClassList(o, o.variants.value, arg + [(k, v)]) == ClassList(o, o.variants.value, arg);
  }

  lemma MergedTokensUnknown(o: Options, arg: Entries<Value>, k: string, v: Value)
    requires o.variants.Some? && k !in o.variants.value
    requires k != "className"
    ensures VariantTokens(o.variants.value, o.responsiveVariants, Merged(o, arg + [(k, v)]))
         == VariantTokens(o.variants.value, o.responsiveVariants, Merged(o, arg))
  {
    ParamVariantsSnoc(arg, k, v);
    if v != Undefined {
      AssignSnoc(DefaultsOf(o), ParamVariants(arg), k, v);
      VariantTokensPutUnknown(o.variants.value, o.responsiveVariants, Merged(o, arg), k, v);
    } else {
      assert ParamVariants(arg + [(k, v)]) == ParamVariants(arg);
    }
  }

  /**
   * When every token after base is non-empty and has no whitespace at its
   * ends, the class string is the tokens joined by single spaces. Base is
   * either such a token too, or the default empty string, whose separator
   * the trim then removes.
   */
  lemma ClassNameOfCleanTokens(o: Options, f: string -> string, arg: Entries<Value>)
    requires o.variants.Some?
    requires BaseOf(o) == "" || Clean(BaseOf(o))
    requires forall t :: t in ClassList(o, o.variants.value, arg)[1..] ==> Clean(t)
    ensures var list := ClassList(o, o.variants.value, arg);
      ResolvedClassName(o, f, arg) == f(Join(if BaseOf(o) == "" then list[1..] else list, " "))
  {
    var list := ClassList(o, o.variants.value, arg);
    var rest := list[1..];
    assert list == [BaseOf(o)] + rest;
    forall i | 0 <= i < |rest| ensures Clean(rest[i]) {
      assert rest[i] in rest;
    }
    TrimJoin(rest);
    if BaseOf(o) != "" {
      TrimJoin([BaseOf(o)] + rest);
    }
  }

  /** A boolean selection is looked up under its string form. */
  lemma BooleanSelection(variants: VariantTable, rv: Option<Responsive>, k: string, b: bool)
    ensures EntryTokens(variants, rv, (k, Bool(b))) == EntryTokens(variants, rv, (k, Str(if b then "true" else "false")))
  {
  }

  /**
   * A scalar value (or an object on a group that is not responsive) gives at
   * most one token: the fragment stored under its string form, when that
   * fragment is non-empty.
   */
  lemma ScalarSelection(variants: VariantTable, rv: Option<Responsive>, k: string, v: Value)
    requires k in variants
    requires !(v.Obj? && IsResponsiveVariant(rv, k))
    ensures |EntryTokens(variants, rv, (k, v))| <= 1
    ensures forall f :: EntryTokens(variants, rv, (k, v)) == [f] <==>
      PropertyKey(v) in variants[k] && variants[k][PropertyKey(v)] == f && f != ""
  {
  }

  /** An object on a group that is not responsive is dropped (its key is "[object Object]"). */
  lemma IneligibleObjectDropped(variants: VariantTable, rv: Option<Responsive>, k: string, bps: Entries<Value>)
    requires k in variants
    requires !IsResponsiveVariant(rv, k)
    requires "[object Object]" !in variants[k]
    ensures EntryTokens(variants, rv, (k, Obj(bps))) == []
  {
  }

  /** A group name outside the table contributes nothing, whatever its value. */
  lemma UnknownGroupNoTokens(variants: VariantTable, rv: Option<Responsive>, k: string, v: Value)
    requires k !in variants
    ensures EntryTokens(variants, rv, (k, v)) == []
  {
  }

  /** Eligibility: membership for a list, otherwise the flag being `true`. */
  lemma Eligibility(rv: Option<Responsive>, k: string)
    ensures IsResponsiveVariant(rv, k) <==> rv == Some(Flag(true)) || (rv.Some? && rv.value.Groups? && k in rv.value.names)
  {
  }

  /**
   * On a responsive group, a per-breakpoint object gives one token per
   * entry, in the object's order: the fragment itself at `xs`, `bp:` and the
   * fragment elsewhere; a fragment the table lacks is empty at `xs` and the
   * text "undefined" elsewhere.
   */
  lemma {:induction false} BreakpointTokensAt(table: GroupTable, bps: Entries<Value>, i: nat)
    requires i < |bps|
    ensures |BreakpointTokens(table, bps)| == |bps|
    ensures var key := PropertyKey(bps[i].1);
      BreakpointTokens(table, bps)[i] ==
        if bps[i].0 == "xs" then (if key in table then table[key] else "")
        else bps[i].0 + ":" + (if key in table then table[key] else "undefined")
  {
    var t := BreakpointTokens(table, bps);
    assert t == [BreakpointToken(table, bps[0])] + BreakpointTokens(table, bps[1..]);
    if |bps| > 1 {
      BreakpointTokensAt(table, bps[1..], if i == 0 then 0 else i - 1);
    } else {
      assert BreakpointTokens(table, bps[1..]) == [];
    }
  }

  lemma ResponsiveSelection(variants: VariantTable, rv: Option<Responsive>, k: string, bps: Entries<Value>)
    requires k in variants
    requires IsResponsiveVariant(rv, k)
    ensures EntryTokens(variants, rv, (k, Obj(bps))) == BreakpointTokens(variants[k], bps)
  {
  }
}
