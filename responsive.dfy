/**
 * Responsive values (lib/util/responsive.ts): a style value given per
 * breakpoint, either positionally as an array read against the breakpoint
 * names xs, sm, md, lg, xl, or as an object keyed by breakpoint name.
 */
module Responsive {
  import opened Js
  import opened Objects

  /** The breakpoint names, narrowest first. */
  const Breakpoints: seq<string> := ["xs", "sm", "md", "lg", "xl"]

  /** The default theme breakpoints (lib/tokens/breakpoints.ts). */
  const DefaultThemeBreakpoints: Value :=
    Arr([Str("640px"), Str("768px"), Str("1024px"), Str("1280px")])

  lemma BreakpointsDistinct()
    ensures forall i, j :: 0 <= i < j < |Breakpoints| ==> Breakpoints[i] != Breakpoints[j]
  {
  }

  // ---------------------------------------------------------------------
  // mapResponsive

  function MapItems(items: seq<Value>, mapper: Value -> Value): (r: seq<Value>)
    ensures |r| == |items|
    ensures forall i :: 0 <= i < |items| ==>
      r[i] == if items[i] == Null then Null else mapper(items[i])
    decreases |items|
  {
    if items == [] then []
    else [if items[0] == Null then Null else mapper(items[0])] + MapItems(items[1..], mapper)
  }

  /** The reduce over the keys: result[key] = mapper(prop[key]). */
  function MapEntries(d: Dict<Value>, mapper: Value -> Value, acc: Dict<Value>): Dict<Value>
    decreases |d|
  {
    if d == [] then acc else MapEntries(d[1..], mapper, Put(acc, d[0].0, mapper(d[0].1)))
  }

  /** mapResponsive(prop, mapper) */
  function MapResponsive(prop: Value, mapper: Value -> Value): Value {
    match prop
    case Arr(items) => Arr(MapItems(items, mapper))
    case Obj(d) => Obj(MapEntries(d, mapper, []))
    case _ => if Nullish(prop) then Null else mapper(prop)
  }

  lemma {:induction false} MapEntriesShape(d: Dict<Value>, mapper: Value -> Value, acc: Dict<Value>)
    requires Distinct(acc + d)
    ensures MapEntries(d, mapper, acc) ==
      acc + seq(|d|, i requires 0 <= i < |d| => (d[i].0, mapper(d[i].1)))
    decreases |d|
  {
    if d != [] {
      var acc' := Put(acc, d[0].0, mapper(d[0].1));
      DistinctSplit(acc, d);
      PutFresh(acc, d[0].0, mapper(d[0].1));
      assert acc' == acc + [(d[0].0, mapper(d[0].1))];
      assert acc + d == (acc + [d[0]]) + d[1..];
      DistinctSplit(acc + [d[0]], d[1..]);
      KeySetPut(acc, d[0].0, mapper(d[0].1));
      KeySetAppend(acc, [d[0]]);
      assert KeySet([d[0]]) == {d[0].0};
      DistinctJoin(acc', d[1..]);
      MapEntriesShape(d[1..], mapper, acc');
      var tail := seq(|d| - 1, i requires 0 <= i < |d| - 1 => (d[1..][i].0, mapper(d[1..][i].1)));
      var all := seq(|d|, i requires 0 <= i < |d| => (d[i].0, mapper(d[i].1)));
      assert all == [(d[0].0, mapper(d[0].1))] + tail;
    }
  }

  /** mapResponsive keeps an array's length, keeps its null entries null and
      maps every other entry. */
  lemma MapResponsiveArray(items: seq<Value>, mapper: Value -> Value)
    ensures MapResponsive(Arr(items), mapper).Arr?
    ensures |MapResponsive(Arr(items), mapper).items| == |items|
    ensures forall i :: 0 <= i < |items| ==>
      MapResponsive(Arr(items), mapper).items[i] == if items[i] == Null then Null else mapper(items[i])
  {
  }

  /** mapResponsive on an object keeps exactly its keys, in order, and maps
      each value. */
  lemma MapResponsiveObject(d: Dict<Value>, mapper: Value -> Value)
    requires Distinct(d)
    ensures MapResponsive(Obj(d), mapper).Obj?
    ensures Keys(MapResponsive(Obj(d), mapper).entries) == Keys(d)
    ensures forall i :: 0 <= i < |d| ==> MapResponsive(Obj(d), mapper).entries[i].1 == mapper(d[i].1)
  {
    assert [] + d == d;
    MapEntriesShape(d, mapper, []);
  }

  /** mapResponsive on anything else maps a non-null value and turns null
      and undefined into null. */
  lemma MapResponsiveScalar(v: Value, mapper: Value -> Value)
    requires !v.Arr? && !v.Obj?
    ensures MapResponsive(v, mapper) == if Nullish(v) then Null else mapper(v)
  {
  }

  // ---------------------------------------------------------------------
  // objectToArrayNotation

  /** s without its trailing run of nulls. */
  function TrimNulls(s: seq<Value>): (r: seq<Value>)
    ensures |r| <= |s| && r == s[..|r|]
    ensures r == [] || r[|r| - 1] != Null
    ensures forall i :: |r| <= i < |s| ==> s[i] == Null
    decreases |s|
  {
    if s != [] && s[|s| - 1] == Null then TrimNulls(s[..|s| - 1]) else s
  }

  /** bps.map(br => obj[br] ?? null) */
  function ValuesAt(obj: Dict<Value>, bps: seq<string>): (r: seq<Value>)
    ensures |r| == |bps|
    ensures forall i :: 0 <= i < |bps| ==> r[i] == Coalesce(Lookup(obj, bps[i]), Null)
  {
    seq(|bps|, i requires 0 <= i < |bps| => Coalesce(Lookup(obj, bps[i]), Null))
  }

  /** The array notation of a breakpoint object: position i holds obj[bps[i]]
      or null, with no trailing nulls. */
  function ObjectToArray(obj: Dict<Value>, bps: seq<string>): (r: seq<Value>)
    ensures |r| <= |bps|
    ensures forall i :: 0 <= i < |r| ==> r[i] == Coalesce(Lookup(obj, bps[i]), Null)
    ensures forall i :: |r| <= i < |bps| ==> Nullish(Lookup(obj, bps[i]))
    ensures r == [] || r[|r| - 1] != Null
  {
    TrimNulls(ValuesAt(obj, bps))
  }

  /** objectToArrayNotation(obj, bps), with its pop loop. */
  method ObjectToArrayNotation(obj: Dict<Value>, bps: seq<string>) returns (result: seq<Value>)
    ensures result == ObjectToArray(obj, bps)
  {
    result := ValuesAt(obj, bps);
    ghost var full := result;
    while |result| > 0 && result[|result| - 1] == Null
      invariant TrimNulls(result) == TrimNulls(full)
      decreases |result|
    {
      result := result[..|result| - 1];
    }
  }

  // ---------------------------------------------------------------------
  // arrayToObjectNotation

  /** bps[index] used as a property key: past the end it is undefined,
      which JavaScript turns into the key 'undefined'. */
  function KeyAt(bps: seq<string>, index: nat): string {
    if index < |bps| then bps[index] else "undefined"
  }

  /** The object the forEach has built after visiting the first n entries. */
  function ArrayToObjectUpTo(values: seq<Value>, bps: seq<string>, n: nat): Dict<Value>
    requires n <= |values|
    decreases n
  {
    if n == 0 then []
    else
      var acc := ArrayToObjectUpTo(values, bps, n - 1);
      if Nullish(values[n - 1]) then acc else Put(acc, KeyAt(bps, n - 1), values[n - 1])
  }

  function ArrayToObject(values: seq<Value>, bps: seq<string>): Dict<Value> {
    ArrayToObjectUpTo(values, bps, |values|)
  }

  /** arrayToObjectNotation(values, bps), with its forEach loop. */
  method ArrayToObjectNotation(values: seq<Value>, bps: seq<string>) returns (result: Dict<Value>)
    ensures result == ArrayToObject(values, bps)
  {
    result := [];
    var index := 0;
    while index < |values|
      invariant 0 <= index <= |values|
      invariant result == ArrayToObjectUpTo(values, bps, index)
    {
      var key := KeyAt(bps, index);
      var value := values[index];
      if !Nullish(value) {
        result := Put(result, key, value);
      }
      index := index + 1;
    }
  }

  /** Entry i of the array lands under key bps[i] unless it is null or
      undefined; no key other than KeyAt(bps, i) of some entry is written. */
  lemma {:induction false} ArrayToObjectGet(values: seq<Value>, bps: seq<string>, n: nat, k: string)
    requires n <= |values|
    requires forall i, j :: 0 <= i < j < |bps| ==> bps[i] != bps[j]
    requires "undefined" !in bps
    ensures forall i :: 0 <= i < n && i < |bps| && bps[i] == k ==>
      Get(ArrayToObjectUpTo(values, bps, n), k) == if Nullish(values[i]) then None else Some(values[i])
    ensures (forall i :: 0 <= i < n ==> KeyAt(bps, i) != k) ==> Get(ArrayToObjectUpTo(values, bps, n), k) == None
    decreases n
  {
    if n > 0 {
      ArrayToObjectGet(values, bps, n - 1, k);
      var acc := ArrayToObjectUpTo(values, bps, n - 1);
      if !Nullish(values[n - 1]) {
        GetPut(acc, KeyAt(bps, n - 1), values[n - 1], k);
      }
    }
  }

  /** The array and object notations are inverse: converting an object whose
      keys are all breakpoints to an array and back keeps exactly its entries
      whose value is not null or undefined. */
  lemma ObjectArrayRoundTrip(obj: Dict<Value>, k: string)
    requires KeySet(obj) <= set b | b in Breakpoints
    ensures Get(ArrayToObject(ObjectToArray(obj, Breakpoints), Breakpoints), k) ==
      if Nullish(Lookup(obj, k)) then None else Get(obj, k)
  {
    var arr := ObjectToArray(obj, Breakpoints);
    BreakpointsDistinct();
    ArrayToObjectGet(arr, Breakpoints, |arr|, k);
    GetNoneIff(obj, k);
    if k in Breakpoints {
      var i :| 0 <= i < |Breakpoints| && Breakpoints[i] == k;
      if i < |arr| {
        assert arr[i] == Coalesce(Lookup(obj, k), Null);
      }
    }
  }

  // ---------------------------------------------------------------------
  // isResponsiveObjectLike

  predicate AllIn(keys: seq<string>, bps: seq<string>)
    decreases |keys|
  {
    keys == [] || (keys[0] in bps && AllIn(keys[1..], bps))
  }

  /** isResponsiveObjectLike(obj, bps): at least one key, and every key a breakpoint. */
  function IsResponsiveObjectLike(obj: Dict<Value>, bps: seq<string>): (r: bool)
    ensures r <==> |obj| > 0 && forall i :: 0 <= i < |obj| ==> obj[i].0 in bps
  {
    AllInSpec(Keys(obj), bps);
    |Keys(obj)| > 0 && AllIn(Keys(obj), bps)
  }

  lemma {:induction false} AllInSpec(keys: seq<string>, bps: seq<string>)
    ensures AllIn(keys, bps) <==> forall i :: 0 <= i < |keys| ==> keys[i] in bps
    decreases |keys|
  {
    if keys != [] {
      AllInSpec(keys[1..], bps);
      assert forall i :: 1 <= i < |keys| ==> keys[i] == keys[1..][i - 1];
    }
  }

  // ---------------------------------------------------------------------
  // getBreakpoints

  /** value[i] for an array value, undefined otherwise. */
  function Index(v: Value, i: nat): Value {
    if v.Arr? && i < |v.items| then v.items[i] else Undefined
  }

  /** parseInt(v), None standing for NaN. */
  function ParseIntValue(v: Value): Option<int> {
    ParseInt(ToStr(v))
  }

  /** theme.breakpoints, or the default theme breakpoints when absent. */
  function ThemeBreakpoints(theme: Value): Value {
    Coalesce(Member(theme, "breakpoints"), DefaultThemeBreakpoints)
  }

  /** getBreakpoints(theme): the breakpoint widths, xs first at 0. */
  function GetBreakpoints(theme: Value): (r: Dict<Option<int>>)
    ensures |r| == |Breakpoints|
    ensures r[0].1 == Some(0)
  {
    var bps := ThemeBreakpoints(theme);
    [("xs", Some(0)),
     ("sm", ParseIntValue(Index(bps, 0))),
     ("md", ParseIntValue(Index(bps, 1))),
     ("lg", ParseIntValue(Index(bps, 2))),
     ("xl", ParseIntValue(Index(bps, 3)))]
  }

  /** The widths are named after the breakpoints, in order. */
  lemma BreakpointNames(theme: Value)
    ensures Keys(GetBreakpoints(theme)) == Breakpoints
  {
    var bps := ThemeBreakpoints(theme);
    NamedWidths(ParseIntValue(Index(bps, 0)), ParseIntValue(Index(bps, 1)),
                ParseIntValue(Index(bps, 2)), ParseIntValue(Index(bps, 3)));
  }

  lemma NamedWidths(sm: Option<int>, md: Option<int>, lg: Option<int>, xl: Option<int>)
    ensures Keys([("xs", Some(0)), ("sm", sm), ("md", md), ("lg", lg), ("xl", xl)]) == Breakpoints
  {
  }

  /** sm..xl take the widths of the theme's four breakpoint strings, each a
      number followed by a unit such as 'px'. */
  lemma ThemeBreakpointWidths(theme: Value, sm: nat, md: nat, lg: nat, xl: nat, unit: string)
    requires unit != "" && !IsDigit(unit[0])
    requires ThemeBreakpoints(theme) ==
      Arr([Str(NatToString(sm) + unit), Str(NatToString(md) + unit),
           Str(NatToString(lg) + unit), Str(NatToString(xl) + unit)])
    ensures GetBreakpoints(theme) ==
      [("xs", Some(0)), ("sm", Some(sm)), ("md", Some(md)), ("lg", Some(lg)), ("xl", Some(xl))]
  {
    ParseIntWithUnit(sm, unit);
    ParseIntWithUnit(md, unit);
    ParseIntWithUnit(lg, unit);
    ParseIntWithUnit(xl, unit);
  }

  lemma DefaultThemeBreakpointsDecimal()
    ensures DefaultThemeBreakpoints ==
      Arr([Str(NatToString(640) + "px"), Str(NatToString(768) + "px"),
           Str(NatToString(1024) + "px"), Str(NatToString(1280) + "px")])
  {
    assert NatToString(64) == "64" && NatToString(640) == "640";
    assert NatToString(76) == "76" && NatToString(768) == "768";
    assert NatToString(10) == "10" && NatToString(102) == "102" && NatToString(1024) == "1024";
    assert NatToString(12) == "12" && NatToString(128) == "128" && NatToString(1280) == "1280";
    assert "640" + "px" == "640px" && "768" + "px" == "768px";
    assert "1024" + "px" == "1024px" && "1280" + "px" == "1280px";
  }

  /** Without theme breakpoints the widths are 0, 640, 768, 1024, 1280. */
  lemma DefaultBreakpointWidths(theme: Value)
    requires Nullish(Member(theme, "breakpoints"))
    ensures GetBreakpoints(theme) ==
      [("xs", Some(0)), ("sm", Some(640)), ("md", Some(768)), ("lg", Some(1024)), ("xl", Some(1280))]
  {
    assert ThemeBreakpoints(theme) == DefaultThemeBreakpoints;
    DefaultThemeBreakpointsDecimal();
    ThemeBreakpointWidths(theme, 640, 768, 1024, 1280, "px");
  }
}
