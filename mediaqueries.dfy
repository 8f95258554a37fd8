/**
 * Media queries for the theme (lib/theme/helpers/responsive.ts): one
 * min-width query per breakpoint, xs always from 0px.
 */
module MediaQueries {
  import opened Js
  import opened Objects
  import opened Responsive

  const Prefix: string := "@media (min-width: "

  /** toMediaString(value): a number gets 'px', anything else as it is. */
  function ToMediaString(value: Value): (r: Value)
    ensures value.Num? ==> r == Str(IntToString(value.n) + "px")
    ensures !value.Num? ==> r == value
  {
    if value.Num? then Str(IntToString(value.n) + "px") else value
  }

  function Query(width: string): string {
    Prefix + width + ")"
  }

  /** createMediaQueries(breakpoints) */
  function CreateMediaQueries(breakpoints: Value): (r: Dict<string>)
    ensures Keys(r) == Breakpoints
    ensures r[0].1 == "@media (min-width: 0px)"
    ensures forall i :: 1 <= i < 5 ==> r[i].1 == Query(ToStr(ToMediaString(Index(breakpoints, i - 1))))
  {
    [("xs", "@media (min-width: 0px)"),
     ("sm", Query(ToStr(ToMediaString(Index(breakpoints, 0))))),
     ("md", Query(ToStr(ToMediaString(Index(breakpoints, 1))))),
     ("lg", Query(ToStr(ToMediaString(Index(breakpoints, 2))))),
     ("xl", Query(ToStr(ToMediaString(Index(breakpoints, 3)))))]
  }

  /** The width a query starts from, its inverse. */
  function QueryWidth(q: string): Option<string> {
    if |q| >= |Prefix| + 1 && q[..|Prefix|] == Prefix && q[|q| - 1] == ')' then Some(q[|Prefix|..|q| - 1])
    else None
  }

  lemma QueryRoundTrip(width: string)
    ensures QueryWidth(Query(width)) == Some(width)
  {
    var q := Query(width);
    assert q[..|Prefix|] == Prefix;
    assert q[|Prefix|..|q| - 1] == width;
  }

  /** Every query has the min-width shape, and xs is 0px. */
  lemma QueriesShape(breakpoints: Value, i: nat)
    requires i < 5
    ensures QueryWidth(CreateMediaQueries(breakpoints)[i].1).Some?
    ensures i == 0 ==> QueryWidth(CreateMediaQueries(breakpoints)[i].1) == Some("0px")
  {
    if i == 0 {
      assert CreateMediaQueries(breakpoints)[0].1 == Query("0px");
      QueryRoundTrip("0px");
    } else {
      QueryRoundTrip(ToStr(ToMediaString(Index(breakpoints, i - 1))));
    }
  }

  /** A numeric breakpoint n is queried as 'n px', and parseInt of the query
      width gives n back; a string breakpoint is used verbatim. */
  lemma NumericBreakpointQuery(breakpoints: Value, i: nat, n: nat)
    requires 1 <= i < 5 && Index(breakpoints, i - 1) == Num(n)
    ensures QueryWidth(CreateMediaQueries(breakpoints)[i].1) == Some(NatToString(n) + "px")
    ensures ParseInt(NatToString(n) + "px") == Some(n)
  {
    QueryRoundTrip(NatToString(n) + "px");
    ParseIntWithUnit(n, "px");
  }

  lemma StringBreakpointQuery(breakpoints: Value, i: nat, s: string)
    requires 1 <= i < 5 && Index(breakpoints, i - 1) == Str(s)
    ensures QueryWidth(CreateMediaQueries(breakpoints)[i].1) == Some(s)
  {
    QueryRoundTrip(s);
  }
}
