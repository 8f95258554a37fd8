/**
 * Pseudo-selector props (lib/system/pseudo.ts). Style keys such as
 * `_hover` name a selector in the pseudo-selector table; parsePseudo
 * renames them throughout a nested style object, and pseudoProps compiles
 * the pseudo props of a component. The table and the css compiler are not
 * part of this model and are passed in.
 */
module Pseudo {
  import opened Js
  import opened Objects

  /** The pseudo-selector table: prop name to selector. */
  type Table = map<string, string>

  /** getPropName(prop): the selector for a pseudo prop, the name itself otherwise. */
  function PropName(table: Table, prop: string): (r: string)
    ensures prop in table ==> r == table[prop]
    ensures prop !in table ==> r == prop
  {
    if prop in table then table[prop] else prop
  }

  /** The object parsePseudo builds from the first n entries of props:
      every value that is an object is parsed in turn, any other value is
      copied, and each lands under the renamed key. */
  function Parsed(table: Table, props: Dict<Value>, n: nat): Dict<Value>
    requires n <= |props|
    decreases Obj(props), n
  {
    if n == 0 then []
    else
      var (prop, value) := props[n - 1];
      assert props[n - 1] in props;
      var v := if value.Obj? then Obj(Parsed(table, value.entries, |value.entries|)) else value;
      Put(Parsed(table, props, n - 1), PropName(table, prop), v)
  }

  function ParsePseudoSpec(table: Table, props: Dict<Value>): Dict<Value> {
    Parsed(table, props, |props|)
  }

  /** parsePseudo(props), with its for...in loop and its recursion into
      nested objects. */
  method ParsePseudo(table: Table, props: Dict<Value>) returns (next: Dict<Value>)
    ensures next == ParsePseudoSpec(table, props)
    decreases Obj(props)
  {
    next := [];
    for i := 0 to |props|
      invariant next == Parsed(table, props, i)
    {
      var (prop, propValue) := props[i];
      var propName := PropName(table, prop);
      if propValue.Obj? {
        assert props[i] in props;
        var inner := ParsePseudo(table, propValue.entries);
        next := Put(next, propName, Obj(inner));
      } else {
        next := Put(next, propName, propValue);
      }
    }
  }

  /** The parsed value stored for one input value. */
  function ParsedValue(table: Table, value: Value): Value {
    if value.Obj? then Obj(ParsePseudoSpec(table, value.entries)) else value
  }

  /** The output keys are exactly the renamed input keys. */
  lemma {:induction false} ParsedKeys(table: Table, props: Dict<Value>, n: nat)
    requires n <= |props|
    ensures KeySet(Parsed(table, props, n)) == set i | 0 <= i < n :: PropName(table, props[i].0)
    ensures |Parsed(table, props, n)| <= n
    ensures Distinct(Parsed(table, props, n))
    decreases n
  {
    if n > 0 {
      ParsedKeys(table, props, n - 1);
      var prev := Parsed(table, props, n - 1);
      var (prop, value) := props[n - 1];
      var v := if value.Obj? then Obj(Parsed(table, value.entries, |value.entries|)) else value;
      KeySetPut(prev, PropName(table, prop), v);
      PutLength(prev, PropName(table, prop), v);
      assert (set i | 0 <= i < n :: PropName(table, props[i].0)) ==
        (set i | 0 <= i < n - 1 :: PropName(table, props[i].0)) + {PropName(table, prop)};
    }
  }

  /** No two keys rename to the same selector (the usual case: the table's
      selectors are distinct and not themselves used as plain keys). */
  predicate RenamesApart(table: Table, props: Dict<Value>) {
    forall i, j :: 0 <= i < j < |props| ==> PropName(table, props[i].0) != PropName(table, props[j].0)
  }

  /** When renamed keys stay apart, entry i of the output is entry i of the
      input under its new name, its value parsed when it is an object and
      copied otherwise. */
  lemma ParsedStep(table: Table, props: Dict<Value>, n: nat)
    requires 0 < n <= |props|
    ensures Parsed(table, props, n) ==
      Put(Parsed(table, props, n - 1), PropName(table, props[n - 1].0), ParsedValue(table, props[n - 1].1))
  {
  }

  lemma RenamedApart(table: Table, props: Dict<Value>, n: nat)
    requires 0 < n <= |props| && RenamesApart(table, props)
    ensures PropName(table, props[n - 1].0) !in KeySet(Parsed(table, props, n - 1))
  {
    ParsedKeys(table, props, n - 1);
  }

  lemma {:induction false} ParsedPositions(table: Table, props: Dict<Value>, n: nat)
    requires n <= |props| && RenamesApart(table, props)
    ensures |Parsed(table, props, n)| == n
    ensures forall i :: 0 <= i < n ==>
      Parsed(table, props, n)[i] == (PropName(table, props[i].0), ParsedValue(table, props[i].1))
    decreases n
  {
    if n > 0 {
      ParsedPositions(table, props, n - 1);
      ParsedKeys(table, props, n - 1);
      var prev := Parsed(table, props, n - 1);
      var name := PropName(table, props[n - 1].0);
      var v := ParsedValue(table, props[n - 1].1);
      RenamedApart(table, props, n);
      ParsedStep(table, props, n);
      PutFresh(prev, name, v);
      assert Parsed(table, props, n) == prev + [(name, v)];
    }
  }

  /** parsePseudo renames the pseudo keys, keeps every other key, and keeps
      the nesting: an output value is an object exactly where the input
      value was. */
  lemma ParsePseudoShape(table: Table, props: Dict<Value>, i: nat)
    requires i < |props| && RenamesApart(table, props)
    ensures |ParsePseudoSpec(table, props)| == |props|
    ensures props[i].0 in table ==> ParsePseudoSpec(table, props)[i].0 == table[props[i].0]
    ensures props[i].0 !in table ==> ParsePseudoSpec(table, props)[i].0 == props[i].0
    ensures ParsePseudoSpec(table, props)[i].1.Obj? <==> props[i].1.Obj?
    ensures !props[i].1.Obj? ==> ParsePseudoSpec(table, props)[i].1 == props[i].1
  {
    ParsedPositions(table, props, |props|);
  }

  /** Whatever the keys, every output key is the rename of an input key, and
      there are no more keys than in the input. */
  lemma ParsePseudoKeys(table: Table, props: Dict<Value>)
    ensures KeySet(ParsePseudoSpec(table, props)) == set i | 0 <= i < |props| :: PropName(table, props[i].0)
    ensures |ParsePseudoSpec(table, props)| <= |props|
  {
    ParsedKeys(table, props, |props|);
  }

  // ---------------------------------------------------------------------
  // pseudoProps

  /** css({ [prop]: value })(theme), the compiler being a parameter. */
  type Compiler = (Dict<Value>, Value) -> Dict<Value>

  /** The result after the first n of the props other than theme. */
  function PseudoStylesUpTo(table: Table, css: Compiler, theme: Value, props: Dict<Value>, n: nat): Dict<Value>
    requires n <= |props|
  {
    if n == 0 then []
    else
      var acc := PseudoStylesUpTo(table, css, theme, props, n - 1);
      var (prop, value) := props[n - 1];
      if prop in table then Spread(acc, css(Single(prop, value), theme)) else acc
  }

  /** The props pseudoProps iterates over: all but theme. */
  function RestProps(props: Dict<Value>): Dict<Value> {
    Omit(props, {"theme"})
  }

  function PseudoPropsSpec(table: Table, css: Compiler, props: Dict<Value>): Dict<Value> {
    PseudoStylesUpTo(table, css, Lookup(props, "theme"), RestProps(props), |RestProps(props)|)
  }

  /** pseudoProps({ theme, ...props }), with its loop. */
  method PseudoProps(table: Table, css: Compiler, props: Dict<Value>) returns (result: Dict<Value>)
    ensures result == PseudoPropsSpec(table, css, props)
  {
    var theme := Lookup(props, "theme");
    var rest := RestProps(props);
    result := [];
    for i := 0 to |rest|
      invariant result == PseudoStylesUpTo(table, css, theme, rest, i)
    {
      var (prop, value) := rest[i];
      if prop in table {
        var style := css(Single(prop, value), theme);
        result := Spread(result, style);
      }
    }
  }

  /** The pseudo props alone, in order. */
  function PseudoOnly(table: Table, props: Dict<Value>): (r: Dict<Value>)
    ensures forall i :: 0 <= i < |r| ==> r[i].0 in table
    decreases |props|
  {
    if props == [] then []
    else if props[0].0 in table then [props[0]] + PseudoOnly(table, props[1..])
    else PseudoOnly(table, props[1..])
  }

  lemma {:induction false} PseudoStylesIgnoreOthers(table: Table, css: Compiler, theme: Value, a: Dict<Value>, b: Dict<Value>)
    requires PseudoOnly(table, a) == PseudoOnly(table, b)
    ensures PseudoStylesUpTo(table, css, theme, a, |a|) == PseudoStylesUpTo(table, css, theme, b, |b|)
  {
    PseudoStylesFromEnd(table, css, theme, a);
    PseudoStylesFromEnd(table, css, theme, b);
  }

  /** The loop result depends on the pseudo props only: it is the spread of
      their compiled styles, in order. */
  function SpreadStyles(css: Compiler, theme: Value, acc: Dict<Value>, props: Dict<Value>): Dict<Value>
    decreases |props|
  {
    if props == [] then acc else SpreadStyles(css, theme, Spread(acc, css(Single(props[0].0, props[0].1), theme)), props[1..])
  }

  lemma {:induction false} PseudoStylesFromEnd(table: Table, css: Compiler, theme: Value, props: Dict<Value>)
    ensures PseudoStylesUpTo(table, css, theme, props, |props|) == SpreadStyles(css, theme, [], PseudoOnly(table, props))
    decreases |props|
  {
    if props != [] {
      var last := props[|props| - 1];
      var init := props[..|props| - 1];
      PseudoStylesPrefix(table, css, theme, props, |props| - 1);
      PseudoStylesFromEnd(table, css, theme, init);
      PseudoOnlyAppend(table, init, last);
      assert init + [last] == props;
      var before := SpreadStyles(css, theme, [], PseudoOnly(table, init));
      assert PseudoStylesUpTo(table, css, theme, props, |props| - 1) == before;
      if last.0 in table {
        SpreadStylesAppend(css, theme, [], PseudoOnly(table, init), [last]);
        assert SpreadStyles(css, theme, before, [last]) == Spread(before, css(Single(last.0, last.1), theme));
      } else {
        assert PseudoOnly(table, props) == PseudoOnly(table, init);
      }
    }
  }

  lemma {:induction false} PseudoStylesPrefix(table: Table, css: Compiler, theme: Value, props: Dict<Value>, n: nat)
    requires n <= |props|
    ensures PseudoStylesUpTo(table, css, theme, props, n) == PseudoStylesUpTo(table, css, theme, props[..n], n)
    decreases n
  {
    if n > 0 {
      PseudoStylesPrefix(table, css, theme, props, n - 1);
      PseudoStylesPrefix(table, css, theme, props[..n], n - 1);
      assert props[..n][..n - 1] == props[..n - 1];
    }
  }

  lemma {:induction false} PseudoOnlyAppend(table: Table, a: Dict<Value>, e: (string, Value))
    ensures PseudoOnly(table, a + [e]) == PseudoOnly(table, a) + (if e.0 in table then [e] else [])
    decreases |a|
  {
    if a != [] {
      assert (a + [e])[1..] == a[1..] + [e];
      PseudoOnlyAppend(table, a[1..], e);
    } else {
      assert a + [e] == [e];
    }
  }

  lemma {:induction false} SpreadStylesAppend(css: Compiler, theme: Value, acc: Dict<Value>, a: Dict<Value>, b: Dict<Value>)
    ensures SpreadStyles(css, theme, acc, a + b) == SpreadStyles(css, theme, SpreadStyles(css, theme, acc, a), b)
    decreases |a|
  {
    if a != [] {
      assert (a + b)[1..] == a[1..] + b;
      SpreadStylesAppend(css, theme, Spread(acc, css(Single(a[0].0, a[0].1), theme)), a[1..], b);
    } else {
      assert a + b == b;
    }
  }

  /** pseudoProps looks only at pseudo props: dropping or adding any other
      prop, theme included, changes nothing. */
  lemma PseudoPropsIgnoreOthers(table: Table, css: Compiler, props: Dict<Value>, props': Dict<Value>)
    requires Lookup(props, "theme") == Lookup(props', "theme")
    requires PseudoOnly(table, RestProps(props)) == PseudoOnly(table, RestProps(props'))
    ensures PseudoPropsSpec(table, css, props) == PseudoPropsSpec(table, css, props')
  {
    PseudoStylesIgnoreOthers(table, css, Lookup(props, "theme"), RestProps(props), RestProps(props'));
  }

  /** A later pseudo prop's compiled style overrides the earlier ones on the
      keys it sets, and leaves the others as they were. */
  lemma LaterPseudoOverrides(table: Table, css: Compiler, theme: Value, props: Dict<Value>, n: nat, k: string)
    requires 0 < n <= |props| && props[n - 1].0 in table
    requires Distinct(css(Single(props[n - 1].0, props[n - 1].1), theme))
    ensures Get(PseudoStylesUpTo(table, css, theme, props, n), k) ==
      var style := css(Single(props[n - 1].0, props[n - 1].1), theme);
      if k in KeySet(style) then Get(style, k) else Get(PseudoStylesUpTo(table, css, theme, props, n - 1), k)
  {
    GetSpread(PseudoStylesUpTo(table, css, theme, props, n - 1), css(Single(props[n - 1].0, props[n - 1].1), theme), k);
  }

  /** A prop that is not a pseudo prop leaves the result as it was. */
  lemma NonPseudoSkipped(table: Table, css: Compiler, theme: Value, props: Dict<Value>, n: nat)
    requires 0 < n <= |props| && props[n - 1].0 !in table
    ensures PseudoStylesUpTo(table, css, theme, props, n) == PseudoStylesUpTo(table, css, theme, props, n - 1)
  {
  }
}
