/**
 * Theme hooks (lib/system/providers.ts): reading a token from the theme,
 * picking the current breakpoint from the screen width, and choosing the
 * value of a responsive prop for that breakpoint.
 */
module Providers {
  import opened Js
  import opened Objects
  import opened Responsive

  // ---------------------------------------------------------------------
  // useToken

  /** useToken(scale, token, fallback). `get` is given as `themeAt`: the
      value the theme holds under a dotted path, undefined when it holds
      none; on undefined `get` answers its default argument. */
  function UseToken(themeAt: string -> Value, scale: string, token: Value, fallback: Value): (r: Value)
    ensures themeAt(scale + "." + ToStr(token)) != Undefined ==> r == themeAt(scale + "." + ToStr(token))
    ensures themeAt(scale + "." + ToStr(token)) == Undefined && !Nullish(fallback) ==> r == fallback
    ensures themeAt(scale + "." + ToStr(token)) == Undefined && Nullish(fallback) ==> r == token
  {
    var found := themeAt(scale + "." + ToStr(token));
    if found == Undefined then Coalesce(fallback, token) else found
  }

  // ---------------------------------------------------------------------
  // useBreakpoint

  /** Widths in ascending order. */
  predicate Ascending(s: Dict<int>) {
    forall i, j :: 0 <= i < j < |s| ==> s[i].1 <= s[j].1
  }

  /** One insertion step of the sort ordering by width, for the comparator
      (a, b) => a[1] >= b[1] ? 1 : -1. The new entry goes before the first
      entry at least as wide; the order among equal widths, which that
      inconsistent comparator leaves to the engine, is not modelled. */
  function Insert(e: (string, int), s: Dict<int>): (r: Dict<int>)
    ensures multiset(r) == multiset(s) + multiset{e}
    decreases |s|
  {
    if s == [] || e.1 <= s[0].1 then [e] + s
    else
      assert s == [s[0]] + s[1..];
      [s[0]] + Insert(e, s[1..])
  }

  lemma {:induction false} InsertAscending(e: (string, int), s: Dict<int>)
    requires Ascending(s)
    ensures Ascending(Insert(e, s))
    ensures |Insert(e, s)| == |s| + 1
    ensures forall i :: 0 <= i < |Insert(e, s)| ==> Insert(e, s)[i] == e || Insert(e, s)[i] in s
    decreases |s|
  {
    if s != [] && e.1 > s[0].1 {
      InsertAscending(e, s[1..]);
      var t := Insert(e, s[1..]);
      assert forall i :: 0 <= i < |t| ==> t[i] == e || t[i] in s[1..];
      assert forall x :: x in s[1..] ==> s[0].1 <= x.1;
      assert forall i :: 0 <= i < |t| ==> s[0].1 <= t[i].1;
      assert Insert(e, s) == [s[0]] + t;
    }
  }

  /** Object.entries(screens).sort(...) */
  function SortByWidth(d: Dict<int>): (r: Dict<int>)
    ensures Ascending(r)
    ensures multiset(r) == multiset(d)
    ensures |r| == |d|
    decreases |d|
  {
    if d == [] then []
    else
      assert d == [d[0]] + d[1..];
      InsertAscending(d[0], SortByWidth(d[1..]));
      Insert(d[0], SortByWidth(d[1..]))
  }

  /** Sorting entries that are already in ascending order keeps them as they are. */
  lemma {:induction false} SortAscending(d: Dict<int>)
    requires Ascending(d)
    ensures SortByWidth(d) == d
    decreases |d|
  {
    if d != [] {
      SortAscending(d[1..]);
      assert d == [d[0]] + d[1..];
    }
  }

  /** The reduce: the name of the last entry not wider than the screen, acc
      when there is none. */
  function SelectBreakpoint(screen: int, s: Dict<int>, acc: string): string
    decreases |s|
  {
    if s == [] then acc
    else SelectBreakpoint(screen, s[1..], if screen >= s[0].1 then s[0].0 else acc)
  }

  lemma {:induction false} SelectLast(screen: int, s: Dict<int>, acc: string)
    ensures (forall i :: 0 <= i < |s| ==> s[i].1 > screen) ==> SelectBreakpoint(screen, s, acc) == acc
    ensures forall j :: 0 <= j < |s| && s[j].1 <= screen && (forall k :: j < k < |s| ==> s[k].1 > screen) ==>
      SelectBreakpoint(screen, s, acc) == s[j].0
    decreases |s|
  {
    if s != [] {
      SelectLast(screen, s[1..], if screen >= s[0].1 then s[0].0 else acc);
      forall j | 0 <= j < |s| && s[j].1 <= screen && (forall k :: j < k < |s| ==> s[k].1 > screen)
        ensures SelectBreakpoint(screen, s, acc) == s[j].0
      {
        if j > 0 {
          assert s[1..][j - 1] == s[j];
          assert forall k :: j - 1 < k < |s| - 1 ==> s[1..][k] == s[k + 1];
        } else {
          assert forall k :: 0 <= k < |s| - 1 ==> s[1..][k] == s[k + 1];
        }
      }
    }
  }

  /** Over entries in ascending order the reduce picks the widest breakpoint
      the screen reaches, and the narrowest when it reaches none. */
  lemma SelectWidest(screen: int, s: Dict<int>, j: nat)
    requires Ascending(s) && j < |s|
    requires s[j].1 <= screen && (j + 1 == |s| || s[j + 1].1 > screen)
    ensures SelectBreakpoint(screen, s, s[0].0) == s[j].0
  {
    SelectLast(screen, s, s[0].0);
  }

  lemma SelectNarrowest(screen: int, s: Dict<int>)
    requires Ascending(s) && |s| > 0 && s[0].1 > screen
    ensures SelectBreakpoint(screen, s, s[0].0) == s[0].0
  {
    SelectLast(screen, s, s[0].0);
  }

  predicate AllNumeric(screens: Dict<Option<int>>) {
    forall i :: 0 <= i < |screens| ==> screens[i].1.Some?
  }

  function Widths(screens: Dict<Option<int>>): (r: Dict<int>)
    requires AllNumeric(screens)
    ensures |r| == |screens|
    ensures forall i :: 0 <= i < |r| ==> r[i] == (screens[i].0, screens[i].1.value)
  {
    seq(|screens|, i requires 0 <= i < |screens| => (screens[i].0, screens[i].1.value))
  }

  /** The breakpoint a screen of the given width is in, for the widths
      getBreakpoints computes. */
  function BreakpointFor(screen: int, screens: Dict<Option<int>>): string
    requires |screens| > 0 && AllNumeric(screens)
  {
    var sorted := SortByWidth(Widths(screens));
    SelectBreakpoint(screen, sorted, sorted[0].0)
  }

  /** useBreakpoint as written: `getBreakpoints(breakpoints)` is handed the
      theme's breakpoints, and reads `.breakpoints` of them in turn. */
  function UseBreakpointAsWritten(screen: int, theme: Value): string
    requires AllNumeric(GetBreakpoints(Member(theme, "breakpoints")))
  {
    BreakpointFor(screen, GetBreakpoints(Member(theme, "breakpoints")))
  }

  /** useBreakpoint as intended: the widths come from the theme itself. A
      theme breakpoint that parseInt reads as NaN is excluded. */
  function UseBreakpoint(screen: int, theme: Value): (r: string)
    requires AllNumeric(GetBreakpoints(theme))
    ensures r in Breakpoints
  {
    var g := GetBreakpoints(theme);
    BreakpointNames(theme);
    assert forall i :: 0 <= i < |g| ==> g[i].0 == Keys(g)[i];
    BreakpointForNames(screen, g, Breakpoints);
    BreakpointFor(screen, g)
  }

  /** useBreakpoint only ever answers with one of the given names. */
  lemma BreakpointForNames(screen: int, g: Dict<Option<int>>, names: seq<string>)
    requires |g| > 0 && AllNumeric(g)
    requires forall i :: 0 <= i < |g| ==> g[i].0 in names
    ensures BreakpointFor(screen, g) in names
  {
    var w := Widths(g);
    var sorted := SortByWidth(w);
    SelectAmong(screen, sorted, sorted[0].0);
    forall i | 0 <= i < |sorted|
      ensures sorted[i].0 in names
    {
      assert sorted[i] in multiset(w);
      var j :| 0 <= j < |w| && w[j] == sorted[i];
    }
  }

  /** The reduce returns the initial name or the name of one of the entries. */
  lemma {:induction false} SelectAmong(screen: int, s: Dict<int>, acc: string)
    ensures SelectBreakpoint(screen, s, acc) == acc ||
      exists i :: 0 <= i < |s| && SelectBreakpoint(screen, s, acc) == s[i].0
    decreases |s|
  {
    if s != [] {
      var acc' := if screen >= s[0].1 then s[0].0 else acc;
      SelectAmong(screen, s[1..], acc');
      if SelectBreakpoint(screen, s[1..], acc') != acc' {
        var i :| 0 <= i < |s[1..]| && SelectBreakpoint(screen, s[1..], acc') == s[1..][i].0;
        assert s[1..][i] == s[i + 1];
      } else if acc' != acc {
        assert SelectBreakpoint(screen, s, acc) == s[0].0;
      }
    }
  }

  /** The widest breakpoint a screen of the given width reaches, for
      widths 0, sm, md, lg and xl; xs when it reaches none. */
  function WidestReached(screen: int, sm: int, md: int, lg: int, xl: int): string {
    if screen >= xl then "xl" else if screen >= lg then "lg" else if screen >= md then "md"
    else if screen >= sm then "sm" else "xs"
  }

  /** The breakpoint for each screen width under the default widths
      0, 640, 768, 1024 and 1280. */
  function DefaultBreakpointFor(screen: int): string {
    WidestReached(screen, 640, 768, 1024, 1280)
  }

  const DefaultWidths: Dict<int> := [("xs", 0), ("sm", 640), ("md", 768), ("lg", 1024), ("xl", 1280)]

  lemma WidthsOfNumbers(g: Dict<Option<int>>, sm: int, md: int, lg: int, xl: int)
    requires g == [("xs", Some(0)), ("sm", Some(sm)), ("md", Some(md)), ("lg", Some(lg)), ("xl", Some(xl))]
    ensures AllNumeric(g)
    ensures Widths(g) == [("xs", 0), ("sm", sm), ("md", md), ("lg", lg), ("xl", xl)]
  {
    var w := Widths(g);
    assert w[0] == ("xs", 0) && w[1] == ("sm", sm) && w[2] == ("md", md);
    assert w[3] == ("lg", lg) && w[4] == ("xl", xl);
  }

  lemma BreakpointForAscending(screen: int, g: Dict<Option<int>>, w: Dict<int>)
    requires |g| > 0 && AllNumeric(g) && Widths(g) == w && Ascending(w)
    ensures BreakpointFor(screen, g) == SelectBreakpoint(screen, w, w[0].0)
  {
    SortAscending(w);
  }

  /** Over ascending widths the reduce picks the widest breakpoint reached. */
  lemma SelectionReached(screen: int, sm: int, md: int, lg: int, xl: int)
    requires 0 <= sm <= md <= lg <= xl
    ensures SelectBreakpoint(screen, [("xs", 0), ("sm", sm), ("md", md), ("lg", lg), ("xl", xl)], "xs") ==
      WidestReached(screen, sm, md, lg, xl)
  {
    var w: Dict<int> := [("xs", 0), ("sm", sm), ("md", md), ("lg", lg), ("xl", xl)];
    if screen >= xl { SelectWidest(screen, w, 4); }
    else if screen >= lg { SelectWidest(screen, w, 3); }
    else if screen >= md { SelectWidest(screen, w, 2); }
    else if screen >= sm { SelectWidest(screen, w, 1); }
    else if screen >= 0 { SelectWidest(screen, w, 0); }
    else { SelectNarrowest(screen, w); }
  }

  /** useBreakpoint as intended reads the theme's own widths: a theme whose
      widths ascend gives the widest theme breakpoint the screen reaches. */
  lemma UseBreakpointReadsTheme(screen: int, theme: Value, sm: int, md: int, lg: int, xl: int)
    requires GetBreakpoints(theme) ==
      [("xs", Some(0)), ("sm", Some(sm)), ("md", Some(md)), ("lg", Some(lg)), ("xl", Some(xl))]
    requires 0 <= sm <= md <= lg <= xl
    ensures AllNumeric(GetBreakpoints(theme))
    ensures UseBreakpoint(screen, theme) == WidestReached(screen, sm, md, lg, xl)
  {
    BreakpointReached(screen, GetBreakpoints(theme), sm, md, lg, xl);
  }

  lemma BreakpointReached(screen: int, g: Dict<Option<int>>, sm: int, md: int, lg: int, xl: int)
    requires g == [("xs", Some(0)), ("sm", Some(sm)), ("md", Some(md)), ("lg", Some(lg)), ("xl", Some(xl))]
    requires 0 <= sm <= md <= lg <= xl
    ensures AllNumeric(g)
    ensures BreakpointFor(screen, g) == WidestReached(screen, sm, md, lg, xl)
  {
    var w: Dict<int> := [("xs", 0), ("sm", sm), ("md", md), ("lg", lg), ("xl", xl)];
    WidthsOfNumbers(g, sm, md, lg, xl);
    BreakpointForAscending(screen, g, w);
    SelectionReached(screen, sm, md, lg, xl);
  }

  lemma DefaultSelectionFor(screen: int)
    ensures SelectBreakpoint(screen, DefaultWidths, "xs") == DefaultBreakpointFor(screen)
  {
    SelectionReached(screen, 640, 768, 1024, 1280);
  }

  lemma DefaultSelectionOf(screen: int, g: Dict<Option<int>>)
    requires g == [("xs", Some(0)), ("sm", Some(640)), ("md", Some(768)), ("lg", Some(1024)), ("xl", Some(1280))]
    ensures AllNumeric(g)
    ensures BreakpointFor(screen, g) == DefaultBreakpointFor(screen)
  {
    WidthsOfNumbers(g, 640, 768, 1024, 1280);
    BreakpointForAscending(screen, g, DefaultWidths);
    DefaultSelectionFor(screen);
  }

  lemma DefaultSelection(screen: int, theme: Value)
    requires Nullish(Member(theme, "breakpoints"))
    ensures AllNumeric(GetBreakpoints(theme))
    ensures BreakpointFor(screen, GetBreakpoints(theme)) == DefaultBreakpointFor(screen)
  {
    DefaultBreakpointWidths(theme);
    DefaultSelectionOf(screen, GetBreakpoints(theme));
  }

  /** As written, the theme's own breakpoints never matter: whenever they are
      an array (or absent) the default widths decide. */
  lemma UseBreakpointIgnoresTheme(screen: int, theme: Value)
    requires !Member(theme, "breakpoints").Obj?
    ensures AllNumeric(GetBreakpoints(Member(theme, "breakpoints")))
    ensures UseBreakpointAsWritten(screen, theme) == DefaultBreakpointFor(screen)
  {
    DefaultSelection(screen, Member(theme, "breakpoints"));
  }

  lemma SmallWidthsSelection(g: Dict<Option<int>>)
    requires g == [("xs", Some(0)), ("sm", Some(100)), ("md", Some(200)), ("lg", Some(300)), ("xl", Some(400))]
    ensures AllNumeric(g)
    ensures BreakpointFor(700, g) == "xl"
  {
    WidthsOfNumbers(g, 100, 200, 300, 400);
    var w: Dict<int> := [("xs", 0), ("sm", 100), ("md", 200), ("lg", 300), ("xl", 400)];
    BreakpointForAscending(700, g, w);
    SelectWidest(700, w, 4);
  }

  lemma SmallThemeWidths(theme: Value)
    requires theme == Obj([("breakpoints", Arr([Str("100px"), Str("200px"), Str("300px"), Str("400px")]))])
    ensures GetBreakpoints(theme) ==
      [("xs", Some(0)), ("sm", Some(100)), ("md", Some(200)), ("lg", Some(300)), ("xl", Some(400))]
  {
    assert NatToString(10) == NatToString(1) + "0";
    assert NatToString(20) == NatToString(2) + "0";
    assert NatToString(30) == NatToString(3) + "0";
    assert NatToString(40) == NatToString(4) + "0";
    assert "100px" == NatToString(100) + "px";
    assert "200px" == NatToString(200) + "px";
    assert "300px" == NatToString(300) + "px";
    assert "400px" == NatToString(400) + "px";
    ThemeBreakpointWidths(theme, 100, 200, 300, 400, "px");
  }

  /** A theme with breakpoints 100px, 200px, 300px and 400px on a 700px
      screen: as written the answer is 'sm', as intended it is 'xl'. */
  lemma UseBreakpointCounterexample(theme: Value)
    requires theme == Obj([("breakpoints", Arr([Str("100px"), Str("200px"), Str("300px"), Str("400px")]))])
    ensures AllNumeric(GetBreakpoints(Member(theme, "breakpoints")))
    ensures UseBreakpointAsWritten(700, theme) == "sm"
    ensures AllNumeric(GetBreakpoints(theme))
    ensures UseBreakpoint(700, theme) == "xl"
  {
    UseBreakpointIgnoresTheme(700, theme);
    SmallThemeWidths(theme);
    SmallWidthsSelection(GetBreakpoints(theme));
  }

  // ---------------------------------------------------------------------
  // getClosestValue and useBreakpointValue

  /** From breakpoint position i downwards, the first value that is not null
      or undefined. */
  function Scan(values: Dict<Value>, i: int): Value
    requires i < |Breakpoints|
    decreases i + 1
  {
    if i < 0 then Undefined
    else if !Nullish(Lookup(values, Breakpoints[i])) then Lookup(values, Breakpoints[i])
    else Scan(values, i - 1)
  }

  /** The value getClosestValue answers: the breakpoint's own value when it
      is a key, otherwise the nearest narrower breakpoint with a value. */
  function ClosestValue(values: Dict<Value>, breakpoint: string): Value {
    if breakpoint in KeySet(values) then Lookup(values, breakpoint)
    else Scan(values, IndexOf(Breakpoints, breakpoint))
  }

  /** getClosestValue(values, breakpoint), with its search loop. */
  method GetClosestValue(values: Dict<Value>, breakpoint: string) returns (r: Value)
    ensures r == ClosestValue(values, breakpoint)
  {
    var index := IndexOf(Keys(values), breakpoint);
    KeySetIndex(values, breakpoint);
    if index != -1 {
      return Lookup(values, breakpoint);
    }
    assert breakpoint !in KeySet(values);
    var stopIndex := IndexOf(Breakpoints, breakpoint);
    var hasFound := false;
    while stopIndex >= 0 && !hasFound
      invariant -1 <= stopIndex < |Breakpoints|
      invariant !hasFound ==> index == -1 && Scan(values, stopIndex) == ClosestValue(values, breakpoint)
      invariant hasFound ==>
        (0 <= index < |Breakpoints| && Lookup(values, Breakpoints[index]) == ClosestValue(values, breakpoint))
      decreases stopIndex + 1
    {
      var key := Breakpoints[stopIndex];
      if !Nullish(Lookup(values, key)) {
        index := stopIndex;
        hasFound := true;
      }
      stopIndex := stopIndex - 1;
    }
    if index != -1 {
      var key := Breakpoints[index];
      r := Lookup(values, key);
    } else {
      r := Undefined;
    }
  }

  /** A breakpoint that is a key gives its own value, null included. */
  lemma ClosestValueOwn(values: Dict<Value>, breakpoint: string)
    requires breakpoint in KeySet(values)
    ensures ClosestValue(values, breakpoint) == Lookup(values, breakpoint)
  {
  }

  /** Otherwise the value of the nearest narrower breakpoint j that has one. */
  lemma {:induction false} ScanNearest(values: Dict<Value>, i: int, j: nat)
    requires j <= i < |Breakpoints|
    requires !Nullish(Lookup(values, Breakpoints[j]))
    requires forall k :: j < k <= i ==> Nullish(Lookup(values, Breakpoints[k]))
    ensures Scan(values, i) == Lookup(values, Breakpoints[j])
    decreases i
  {
    if i > j {
      ScanNearest(values, i - 1, j);
    }
  }

  /** And undefined when no breakpoint up to it has one. */
  lemma {:induction false} ScanNone(values: Dict<Value>, i: int)
    requires i < |Breakpoints|
    requires forall k :: 0 <= k <= i ==> Nullish(Lookup(values, Breakpoints[k]))
    ensures Scan(values, i) == Undefined
    decreases i + 1
  {
    if i >= 0 {
      ScanNone(values, i - 1);
    }
  }

  lemma ClosestValueNearest(values: Dict<Value>, i: nat, j: nat)
    requires j <= i < |Breakpoints| && Breakpoints[i] !in KeySet(values)
    requires !Nullish(Lookup(values, Breakpoints[j]))
    requires forall k :: j < k <= i ==> Nullish(Lookup(values, Breakpoints[k]))
    ensures ClosestValue(values, Breakpoints[i]) == Lookup(values, Breakpoints[j])
  {
    BreakpointsDistinct();
    assert IndexOf(Breakpoints, Breakpoints[i]) == i;
    ScanNearest(values, i, j);
  }

  lemma ClosestValueNone(values: Dict<Value>, breakpoint: string)
    requires breakpoint !in KeySet(values)
    requires forall k :: 0 <= k <= IndexOf(Breakpoints, breakpoint) ==>
      Nullish(Lookup(values, Breakpoints[k]))
    ensures ClosestValue(values, breakpoint) == Undefined
  {
    ScanNone(values, IndexOf(Breakpoints, breakpoint));
  }

  /** The search never looks at a wider breakpoint than the one asked for. */
  lemma {:induction false} ScanIgnoresWider(values: Dict<Value>, i: int, w: nat, v: Value)
    requires i < w < |Breakpoints|
    ensures Scan(Put(values, Breakpoints[w], v), i) == Scan(values, i)
    decreases i + 1
  {
    if i >= 0 {
      BreakpointsDistinct();
      GetPut(values, Breakpoints[w], v, Breakpoints[i]);
      ScanIgnoresWider(values, i - 1, w, v);
    }
  }

  lemma ClosestValueIgnoresWider(values: Dict<Value>, i: nat, w: nat, v: Value)
    requires i < w < |Breakpoints|
    ensures ClosestValue(Put(values, Breakpoints[w], v), Breakpoints[i]) == ClosestValue(values, Breakpoints[i])
  {
    BreakpointsDistinct();
    KeySetPut(values, Breakpoints[w], v);
    GetPut(values, Breakpoints[w], v, Breakpoints[i]);
    ScanIgnoresWider(values, IndexOf(Breakpoints, Breakpoints[i]), w, v);
  }

  /** The values a responsive hook is given: positional or by name. */
  datatype ResponsiveValues = ByPosition(items: seq<Value>) | ByName(entries: Dict<Value>)

  function BreakpointValue(values: ResponsiveValues, breakpoint: string): Value {
    if breakpoint == "" then Undefined
    else
      var obj := match values
        case ByPosition(items) => ArrayToObject(items, Breakpoints)
        case ByName(d) => d;
      ClosestValue(obj, breakpoint)
  }

  /** useBreakpointValue(values) for the current breakpoint. */
  method UseBreakpointValue(values: ResponsiveValues, breakpoint: string) returns (r: Value)
    ensures r == BreakpointValue(values, breakpoint)
  {
    if breakpoint == "" {
      return Undefined;
    }
    var obj: Dict<Value>;
    match values {
      case ByPosition(items) =>
        obj := ArrayToObjectNotation(items, Breakpoints);
      case ByName(d) =>
        obj := d;
    }
    r := GetClosestValue(obj, breakpoint);
  }

  /** Positional values: at breakpoint i the hook answers the entry at the
      greatest position j <= i that is not null or undefined. */
  lemma BreakpointValueByPosition(items: seq<Value>, i: nat, j: nat)
    requires j <= i < |Breakpoints| && j < |items|
    requires !Nullish(items[j])
    requires forall k :: j < k <= i && k < |items| ==> Nullish(items[k])
    ensures BreakpointValue(ByPosition(items), Breakpoints[i]) == items[j]
  {
    var obj := ArrayToObject(items, Breakpoints);
    BreakpointsDistinct();
    forall k | 0 <= k < |Breakpoints|
      ensures Get(obj, Breakpoints[k]) == if k < |items| && !Nullish(items[k]) then Some(items[k]) else None
    {
      ArrayToObjectGet(items, Breakpoints, |items|, Breakpoints[k]);
    }
    GetNoneIff(obj, Breakpoints[i]);
    if Breakpoints[i] !in KeySet(obj) {
      ClosestValueNearest(obj, i, j);
    } else {
      assert i == j;
    }
  }

  /** And undefined when every entry up to position i is null or undefined. */
  lemma BreakpointValueByPositionNone(items: seq<Value>, i: nat)
    requires i < |Breakpoints|
    requires forall k :: 0 <= k <= i && k < |items| ==> Nullish(items[k])
    ensures BreakpointValue(ByPosition(items), Breakpoints[i]) == Undefined
  {
    var obj := ArrayToObject(items, Breakpoints);
    BreakpointsDistinct();
    forall k | 0 <= k < |Breakpoints|
      ensures Get(obj, Breakpoints[k]) == if k < |items| && !Nullish(items[k]) then Some(items[k]) else None
    {
      ArrayToObjectGet(items, Breakpoints, |items|, Breakpoints[k]);
    }
    GetNoneIff(obj, Breakpoints[i]);
    assert IndexOf(Breakpoints, Breakpoints[i]) == i;
    ClosestValueNone(obj, Breakpoints[i]);
  }
}
