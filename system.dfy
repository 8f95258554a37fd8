/**
 * The styled factory (lib/system/system.ts): the `__css` interpolation,
 * where a component's explicit props beat its internal style defaults,
 * and the fixed order in which `styled` applies its interpolations.
 */
module System {
  import opened Js
  import opened Objects
  import opened Pseudo
  import SystemUtils

  // ---------------------------------------------------------------------
  // __css

  /** props.__css as a dictionary; it holds no keys when it is not an object. */
  function CssDefaults(props: Dict<Value>): Dict<Value> {
    var c := Lookup(props, "__css");
    if c.Obj? then c.entries else []
  }

  /** A default survives when the props lack the key or hold null or
      undefined there. */
  predicate Survives(props: Dict<Value>, key: string) {
    key !in KeySet(props) || Nullish(Lookup(props, key))
  }

  /** The result the loop has built after the first n defaults. */
  function KeptUpTo(props: Dict<Value>, defaults: Dict<Value>, n: nat): Dict<Value>
    requires n <= |defaults|
  {
    if n == 0 then []
    else
      var acc := KeptUpTo(props, defaults, n - 1);
      var (key, value) := defaults[n - 1];
      if Survives(props, key) then Put(acc, key, value) else acc
  }

  function KeptDefaults(props: Dict<Value>): Dict<Value> {
    KeptUpTo(props, CssDefaults(props), |CssDefaults(props)|)
  }

  /** The `__css` interpolation: the surviving defaults, compiled. */
  method CssInterpolation(css: Compiler, props: Dict<Value>) returns (style: Dict<Value>)
    ensures style == css(KeptDefaults(props), Lookup(props, "theme"))
  {
    var defaults := CssDefaults(props);
    var result: Dict<Value> := [];
    for i := 0 to |defaults|
      invariant result == KeptUpTo(props, defaults, i)
    {
      var (key, value) := defaults[i];
      var exists_ := key in KeySet(props);
      if !exists_ || Nullish(Lookup(props, key)) {
        result := Put(result, key, value);
      }
    }
    style := css(result, Lookup(props, "theme"));
  }

  lemma {:induction false} KeptUpToGet(props: Dict<Value>, defaults: Dict<Value>, n: nat, k: string)
    requires n <= |defaults| && Distinct(defaults)
    ensures Get(KeptUpTo(props, defaults, n), k) ==
      if k in KeySet(defaults[..n]) && Survives(props, k) then Get(defaults[..n], k) else None
    decreases n
  {
    if n > 0 {
      KeptUpToGet(props, defaults, n - 1, k);
      var (key, value) := defaults[n - 1];
      var acc := KeptUpTo(props, defaults, n - 1);
      if Survives(props, key) {
        GetPut(acc, key, value, k);
      }
      assert defaults[..n] == defaults[..n - 1] + [defaults[n - 1]];
      KeySetAppend(defaults[..n - 1], [defaults[n - 1]]);
      assert KeySet([defaults[n - 1]]) == {key};
      DistinctPrefix(defaults, n);
      DistinctSplit(defaults[..n - 1], [defaults[n - 1]]);
      GetAppend(defaults[..n - 1], [defaults[n - 1]], k);
      assert Get([defaults[n - 1]], k) == if k == key then Some(value) else None;
    }
  }

  lemma DistinctPrefix<V>(d: Dict<V>, n: nat)
    requires n <= |d| && Distinct(d)
    ensures Distinct(d[..n]) && Distinct(d[n..]) && KeySet(d[..n]) !! KeySet(d[n..])
  {
    assert d == d[..n] + d[n..];
    DistinctSplit(d[..n], d[n..]);
  }

  lemma {:induction false} GetAppend<V>(a: Dict<V>, b: Dict<V>, k: string)
    ensures Get(a + b, k) == if k in KeySet(a) then Get(a, k) else Get(b, k)
    decreases |a|
  {
    if a != [] {
      assert (a + b)[1..] == a[1..] + b;
      GetAppend(a[1..], b, k);
    } else {
      assert a + b == b;
    }
  }

  /** A key survives the filter exactly when it is a default and the props
      lack it or hold null or undefined for it; it keeps its default value. */
  lemma KeptDefaultsGet(props: Dict<Value>, k: string)
    requires Distinct(CssDefaults(props))
    ensures Get(KeptDefaults(props), k) ==
      if k in KeySet(CssDefaults(props)) && Survives(props, k) then Get(CssDefaults(props), k) else None
  {
    var d := CssDefaults(props);
    assert d[..|d|] == d;
    KeptUpToGet(props, d, |d|, k);
  }

  /** An explicit prop that is not null or undefined suppresses the default
      of the same name. */
  lemma ExplicitPropWins(props: Dict<Value>, k: string)
    requires Distinct(CssDefaults(props))
    requires k in KeySet(props) && !Nullish(Lookup(props, k))
    ensures Get(KeptDefaults(props), k) == None
  {
    KeptDefaultsGet(props, k);
  }

  // ---------------------------------------------------------------------
  // styled

  /** The interpolations `styled` hands to the style engine. */
  datatype Interpolation =
    | CssDefaultsStyle
    | BaseStyle(baseStyle: Value)
    | SystemPropsStyle
    | PseudoPropsStyle
    | TruncateStyle
    | SxStyle
    | CssPropStyle

  /** The identity of the library's shouldForwardProp function. */
  const ShouldForwardPropFn: Value := Func(0)

  datatype StyledConfig = StyledConfig(options: Dict<Value>, interpolations: seq<Interpolation>)

  /** styled(component, options), minus the component. */
  function Styled(options: Value): (r: StyledConfig)
    ensures |r.interpolations| == 7
  {
    var opts := if Truthy(options) && options.Obj? then options.entries else [];
    var baseStyle := Lookup(opts, "baseStyle");
    var styledOptions := Omit(opts, {"baseStyle"});
    StyledConfig(
      Spread(styledOptions, Single("shouldForwardProp", ShouldForwardPropFn)),
      [CssDefaultsStyle, BaseStyle(baseStyle), SystemPropsStyle, PseudoPropsStyle,
       TruncateStyle, SxStyle, CssPropStyle])
  }

  /** The interpolations come in a fixed order: __css, baseStyle, system
      props, pseudo props, truncation, sx, css. */
  lemma StyledOrder(options: Value)
    ensures Styled(options).interpolations ==
      [CssDefaultsStyle, BaseStyle(if Truthy(options) && options.Obj? then Lookup(options.entries, "baseStyle") else Undefined),
       SystemPropsStyle, PseudoPropsStyle, TruncateStyle, SxStyle, CssPropStyle]
  {
  }

  /** The options passed on always carry the library's shouldForwardProp,
      whatever the caller gave, never carry baseStyle, and keep every other
      option. */
  lemma StyledOptions(options: Value, k: string)
    requires options.Obj? && Distinct(options.entries)
    ensures Get(Styled(options).options, "shouldForwardProp") == Some(ShouldForwardPropFn)
    ensures "baseStyle" !in KeySet(Styled(options).options)
    ensures k != "shouldForwardProp" ==>
      Get(Styled(options).options, k) == if k == "baseStyle" then None else Get(options.entries, k)
  {
    var opts := if Truthy(options) && options.Obj? then options.entries else [];
    assert opts == options.entries;
    var single := Single("shouldForwardProp", ShouldForwardPropFn);
    GetSpread(Omit(opts, {"baseStyle"}), single, k);
    GetSpread(Omit(opts, {"baseStyle"}), single, "shouldForwardProp");
    GetOmit(opts, {"baseStyle"}, k);
    KeySetSpread(Omit(opts, {"baseStyle"}), single);
    GetOmit(opts, {"baseStyle"}, "baseStyle");
  }

  /** How the style engine combines the pieces the interpolations produce: a
      later piece overrides an earlier one on the properties it sets. */
  function Compose(pieces: seq<Dict<Value>>): Dict<Value>
    decreases |pieces|
  {
    if pieces == [] then [] else Spread(Compose(pieces[..|pieces| - 1]), pieces[|pieces| - 1])
  }

  /** A property takes its value from the last piece that sets it. */
  lemma {:induction false} ComposeLastWins(pieces: seq<Dict<Value>>, j: nat, k: string)
    requires j < |pieces| && k in KeySet(pieces[j])
    requires forall i :: 0 <= i < |pieces| ==> Distinct(pieces[i])
    requires forall i :: j < i < |pieces| ==> k !in KeySet(pieces[i])
    ensures Get(Compose(pieces), k) == Get(pieces[j], k)
    decreases |pieces|
  {
    var n := |pieces|;
    GetSpread(Compose(pieces[..n - 1]), pieces[n - 1], k);
    if j < n - 1 {
      ComposeLastWins(pieces[..n - 1], j, k);
    }
  }

  /** The pieces `styled` produces for one render, in interpolation order.
      The styled-system parser is given as `system`; truncation is
      truncateProp applied to the props' isTruncated and noOfLines. */
  function RenderPieces(cfg: StyledConfig, css: Compiler, system: Dict<Value> -> Dict<Value>,
                        table: Table, props: Dict<Value>): (r: seq<Dict<Value>>)
    ensures |r| == 7
  {
    var theme := Lookup(props, "theme");
    var baseStyle := if |cfg.interpolations| > 1 && cfg.interpolations[1].BaseStyle? then cfg.interpolations[1].baseStyle else Undefined;
    var sx := Lookup(props, "sx");
    var cssProp := Lookup(props, "css");
    var truncation := SystemUtils.TruncateProp(Lookup(props, "isTruncated"), Lookup(props, "noOfLines"));
    [css(KeptDefaults(props), theme),
     css(if baseStyle.Obj? then baseStyle.entries else [], theme),
     system(props),
     PseudoPropsSpec(table, css, props),
     if truncation.Obj? then truncation.entries else [],
     css(if sx.Obj? then sx.entries else [], theme),
     if cssProp.Obj? then cssProp.entries else []]
  }

  /** The `css` prop beats every other source of a style property, and the
      `sx` prop beats everything but the `css` prop. */
  lemma CssPropWins(cfg: StyledConfig, css: Compiler, system: Dict<Value> -> Dict<Value>,
                    table: Table, props: Dict<Value>, k: string)
    requires forall i :: 0 <= i < 7 ==> Distinct(RenderPieces(cfg, css, system, table, props)[i])
    ensures k in KeySet(RenderPieces(cfg, css, system, table, props)[6]) ==>
      Get(Compose(RenderPieces(cfg, css, system, table, props)), k) ==
      Get(RenderPieces(cfg, css, system, table, props)[6], k)
    ensures k in KeySet(RenderPieces(cfg, css, system, table, props)[5]) &&
            k !in KeySet(RenderPieces(cfg, css, system, table, props)[6]) ==>
      Get(Compose(RenderPieces(cfg, css, system, table, props)), k) ==
      Get(RenderPieces(cfg, css, system, table, props)[5], k)
  {
    var pieces := RenderPieces(cfg, css, system, table, props);
    if k in KeySet(pieces[6]) {
      ComposeLastWins(pieces, 6, k);
    }
    if k in KeySet(pieces[5]) && k !in KeySet(pieces[6]) {
      ComposeLastWins(pieces, 5, k);
    }
  }
}
