/**
 * The prop-forwarding predicate (lib/system/should-forward-prop.ts): a prop
 * reaches the DOM unless its whole name is a style-system prop name or one
 * of the library's own style props; three html* props always do. The
 * style-system prop names come from a library that is not part of this
 * model and are a parameter.
 */
module ForwardProp {
  import opened Js

  /** The library's own props that never reach the DOM. */
  const ExtraPropNames: seq<string> :=
    ["textStyle", "layerStyle", "apply", "isTruncated", "noOfLines", "focusBorderColor",
     "errorBorderColor", "as", "__css", "css", "sx"]

  const ValidHtmlProps: seq<string> := ["htmlWidth", "htmlHeight", "htmlSize"]

  function AllPropNames(systemNames: seq<string>): seq<string> {
    systemNames + ExtraPropNames
  }

  /** A prop name as style-system names are written: letters, digits and
      '_', so no regular-expression metacharacter. */
  predicate PlainName(s: string) {
    s != "" && forall i :: 0 <= i < |s| ==> PlainChar(s[i])
  }

  predicate PlainChar(c: char) {
    ('a' <= c <= 'z') || ('A' <= c <= 'Z') || ('0' <= c <= '9') || c == '_'
  }

  /** The source of `new RegExp(`^(${props.join('|')})$`)`. */
  function Pattern(names: seq<string>): string {
    "^(" + Join(names, "|") + ")$"
  }

  /** A pattern of the shape ^(a|b|...)$ whose alternatives are plain text. */
  predicate AnchoredAlternation(pattern: string) {
    |pattern| >= 4 && pattern[..2] == "^(" && pattern[|pattern| - 2..] == ")$" &&
    forall i :: 2 <= i < |pattern| - 2 ==> PlainChar(pattern[i]) || pattern[i] == '|'
  }

  /** RegExp.prototype.test for such a pattern: the whole string must equal
      one of the alternatives. */
  function RegexTest(pattern: string, s: string): bool
    requires AnchoredAlternation(pattern)
  {
    s in Split(pattern[2..|pattern| - 2], '|')
  }

  lemma {:induction false} JoinPlain(names: seq<string>)
    requires forall i :: 0 <= i < |names| ==> PlainName(names[i])
    ensures forall i :: 0 <= i < |Join(names, "|")| ==> PlainChar(Join(names, "|")[i]) || Join(names, "|")[i] == '|'
    decreases |names|
  {
    if |names| > 1 {
      JoinPlain(names[1..]);
      var j := Join(names[1..], "|");
      assert Join(names, "|") == names[0] + "|" + j;
      forall i | 0 <= i < |Join(names, "|")|
        ensures PlainChar(Join(names, "|")[i]) || Join(names, "|")[i] == '|'
      {
        if i < |names[0]| {
          assert Join(names, "|")[i] == names[0][i];
        } else if i > |names[0]| {
          assert Join(names, "|")[i] == j[i - |names[0]| - 1];
        }
      }
    }
  }

  /** The pattern built from plain names is an anchored alternation, and it
      matches exactly those names: whole names only. */
  lemma PatternMatchesExactly(names: seq<string>, s: string)
    requires |names| >= 1 && forall i :: 0 <= i < |names| ==> PlainName(names[i])
    ensures AnchoredAlternation(Pattern(names))
    ensures RegexTest(Pattern(names), s) <==> s in names
  {
    var p := Pattern(names);
    var j := Join(names, "|");
    JoinPlain(names);
    assert p[2..|p| - 2] == j;
    assert p[..2] == "^(";
    assert p[|p| - 2..] == ")$";
    forall i | 2 <= i < |p| - 2
      ensures PlainChar(p[i]) || p[i] == '|'
    {
      assert p[i] == j[i - 2];
    }
    forall i | 0 <= i < |names|
      ensures '|' !in names[i]
    {
      assert forall k :: 0 <= k < |names[i]| ==> PlainChar(names[i][k]) && names[i][k] != '|';
    }
    SplitJoin(names, '|');
  }

  /** shouldForwardProp(prop), for the given style-system prop names. */
  function ShouldForwardProp(systemNames: seq<string>, prop: string): bool
    requires forall i :: 0 <= i < |systemNames| ==> PlainName(systemNames[i])
  {
    ExtraNamesPlain(systemNames);
    if prop in ValidHtmlProps then true
    else !RegexTest(Pattern(AllPropNames(systemNames)), prop)
  }

  lemma ExtraNamesPlain(systemNames: seq<string>)
    requires forall i :: 0 <= i < |systemNames| ==> PlainName(systemNames[i])
    ensures |AllPropNames(systemNames)| >= 1
    ensures forall i :: 0 <= i < |AllPropNames(systemNames)| ==> PlainName(AllPropNames(systemNames)[i])
    ensures AnchoredAlternation(Pattern(AllPropNames(systemNames)))
  {
    var all := AllPropNames(systemNames);
    forall i | 0 <= i < |all|
      ensures PlainName(all[i])
    {
      if i >= |systemNames| {
        assert all[i] == ExtraPropNames[i - |systemNames|];
      }
    }
    PatternMatchesExactly(all, "");
  }

  /** A prop is forwarded exactly when it is one of the html* props or its
      whole name is none of the style prop names. */
  lemma ForwardedIff(systemNames: seq<string>, prop: string)
    requires forall i :: 0 <= i < |systemNames| ==> PlainName(systemNames[i])
    ensures ShouldForwardProp(systemNames, prop) <==>
      prop in ValidHtmlProps || (prop !in systemNames && prop !in ExtraPropNames)
  {
    ExtraNamesPlain(systemNames);
    PatternMatchesExactly(AllPropNames(systemNames), prop);
  }

  /** htmlWidth, htmlHeight and htmlSize are always forwarded. */
  lemma HtmlPropsForwarded(systemNames: seq<string>, prop: string)
    requires forall i :: 0 <= i < |systemNames| ==> PlainName(systemNames[i])
    requires prop in ValidHtmlProps
    ensures ShouldForwardProp(systemNames, prop)
  {
  }

  /** Matching is anchored: a name that merely contains a style prop name is
      forwarded unless it is itself one. */
  lemma ContainingNameForwarded(systemNames: seq<string>, pre: string, name: string, post: string)
    requires forall i :: 0 <= i < |systemNames| ==> PlainName(systemNames[i])
    requires name in systemNames && pre + post != ""
    requires pre + name + post !in systemNames && pre + name + post !in ExtraPropNames
    ensures ShouldForwardProp(systemNames, pre + name + post)
  {
    ForwardedIff(systemNames, pre + name + post);
  }

  /** memoize(...) around the predicate: a cache of earlier answers. */
  class ForwardPropMemo {
    const systemNames: seq<string>
    var cache: map<string, bool>

    ghost predicate Valid()
      reads this
    {
      (forall i :: 0 <= i < |systemNames| ==> PlainName(systemNames[i])) &&
      forall p :: p in cache ==> cache[p] == ShouldForwardProp(systemNames, p)
    }

    constructor (names: seq<string>)
      requires forall i :: 0 <= i < |names| ==> PlainName(names[i])
      ensures Valid() && systemNames == names && cache == map[]
    {
      systemNames := names;
      cache := map[];
    }

    /** The memoised call answers what the predicate answers, cached or not. */
    method Test(prop: string) returns (r: bool)
      requires Valid()
      modifies this
      ensures Valid()
      ensures r == ShouldForwardProp(systemNames, prop)
      ensures cache == old(cache)[prop := r]
    {
      if prop in cache {
        r := cache[prop];
      } else {
        r := ShouldForwardProp(systemNames, prop);
        cache := cache[prop := r];
      }
    }
  }
}
