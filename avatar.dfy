/**
 * Avatars (lib/Avatar.tsx): the initials shown for a name, the background
 * colour derived from it, and how an avatar group keeps, orders and
 * decorates its avatars and counts the ones it hides.
 */
module Avatar {
  import opened Js
  import opened Objects
  import Color

  // ---------------------------------------------------------------------
  // initials

  /** s.charAt(0) */
  function CharAt0(s: string): (r: string)
    ensures |r| <= 1 && (s != "" ==> r == [s[0]]) && (s == "" ==> r == "")
  {
    if s == "" then "" else [s[0]]
  }

  /** initials(name): `const [firstName, lastName] = name.split(' ')`. */
  function Initials(name: string): (r: string)
    ensures |r| <= 2
  {
    var parts := Split(name, ' ');
    var firstName := parts[0];
    var lastName := if |parts| > 1 then parts[1] else "";
    if firstName != "" && |parts| > 1 && lastName != "" then CharAt0(firstName) + CharAt0(lastName)
    else CharAt0(firstName)
  }

  lemma {:induction false} BeforeWord(word: string, rest: string)
    requires ' ' !in word && (rest == "" || rest[0] == ' ')
    ensures Before(word + rest, ' ') == word
    decreases |word|
  {
    if word == [] {
      assert word + rest == rest;
    } else {
      assert (word + rest)[0] == word[0] && (word + rest)[1..] == word[1..] + rest;
      BeforeWord(word[1..], rest);
      assert [word[0]] + word[1..] == word;
    }
  }

  /** Two words give their first letters; anything after the second word
      is ignored. */
  lemma InitialsOfTwoWords(first: string, last: string, rest: string)
    requires first != "" && last != "" && ' ' !in first && ' ' !in last
    requires rest == "" || rest[0] == ' '
    ensures Initials(first + " " + last + rest) == [first[0], last[0]]
  {
    var t := " " + last + rest;
    assert first + " " + last + rest == first + t;
    SplitPrefix(first, t, ' ');
    assert t[1..] == last + rest;
    assert Split(t, ' ') == [""] + Split(last + rest, ' ');
    SplitFirst(last + rest, ' ');
    BeforeWord(last, rest);
    var parts := Split(first + t, ' ');
    assert parts[0] == first + "";
    assert parts[1] == last;
  }

  /** One word gives its first letter, and the empty name gives nothing. */
  lemma InitialsOfOneWord(word: string)
    requires ' ' !in word
    ensures Initials(word) == CharAt0(word)
    ensures Initials("") == ""
  {
    SplitPrefix(word, "", ' ');
    assert word + "" == word;
  }

  /** A leading space makes the first word empty, and then there are no
      initials: `firstName.charAt(0)` of '' is ''. */
  lemma InitialsWithEmptyFirstWord(rest: string)
    ensures Initials(" " + rest) == ""
  {
    SplitFirst(" " + rest, ' ');
  }

  /** With no second word (a trailing space or a double space) only the first
      letter is used. */
  lemma InitialsWithEmptySecondWord(first: string, rest: string)
    requires first != "" && ' ' !in first && (rest == "" || rest[0] == ' ')
    ensures Initials(first + " " + rest) == [first[0]]
  {
    var t := " " + rest;
    assert first + " " + rest == first + t;
    SplitPrefix(first, t, ' ');
    assert t[1..] == rest;
    SplitFirst(rest, ' ');
    BeforeWord("", rest);
    assert "" + rest == rest;
    var parts := Split(first + t, ' ');
    assert parts[0] == first + "";
  }

  // ---------------------------------------------------------------------
  // bg

  /** The avatar background: the name's hash colour, gray.400 without a
      name. `fallback` is the random colour randomColor would fall back to,
      which a named avatar never reaches. */
  function AvatarBg(name: Option<string>, fallback: string): (r: string)
    ensures name.None? || name.value == "" ==> r == "gray.400"
    ensures name.Some? && name.value != "" ==> r == Color.ColorFromString(name.value)
  {
    if name.Some? && name.value != "" then
      var c := Color.RandomColor(Some(Color.RandomColorOptions(Some(name.value), None)), fallback, 0);
      if c.Some? then c.value else fallback
    else "gray.400"
  }

  /** A named avatar's colour is a hex colour that depends on the name alone. */
  lemma AvatarBgIsHex(name: string, fallback1: string, fallback2: string)
    requires name != ""
    ensures AvatarBg(Some(name), fallback1) == AvatarBg(Some(name), fallback2)
    ensures |AvatarBg(Some(name), fallback1)| == 7 && AvatarBg(Some(name), fallback1)[0] == '#'
  {
    Color.ColorFromStringShape(name);
  }

  /** The initials' colour: white on a dark background or without a name,
      gray.800 otherwise; `bgIsDark` is the theme's darkness test of the
      background. */
  function AvatarColor(name: Option<string>, bgIsDark: bool): (r: string)
    ensures r == "gray.800" <==> name.Some? && name.value != "" && !bgIsDark
    ensures r == "white" || r == "gray.800"
  {
    if name.Some? && name.value != "" then (if bgIsDark then "white" else "gray.800") else "white"
  }

  // ---------------------------------------------------------------------
  // AvatarGroup

  /** A destructuring default: applied only when the prop is undefined. */
  function Defaulted(v: Value, default: Value): (r: Value)
    ensures v != Undefined ==> r == v
    ensures v == Undefined ==> r == default
  {
    if v == Undefined then default else v
  }

  /** Array.prototype.slice(0, end) */
  function Slice0<T>(s: seq<T>, end: int): (r: seq<T>)
    ensures |r| <= |s| && r == s[..|r|]
    ensures 0 <= end ==> |r| == if end < |s| then end else |s|
    ensures end < 0 ==> |r| == if |s| + end > 0 then |s| + end else 0
  {
    var e := if end < 0 then (if |s| + end > 0 then |s| + end else 0) else if end < |s| then end else |s|;
    s[..e]
  }

  /** `max ? validChildren.slice(0, max) : validChildren` */
  function WithinMax<T>(children: seq<T>, max: Option<int>): (r: seq<T>)
    ensures |r| <= |children| && r == children[..|r|]
    ensures max.None? || max.value == 0 ==> r == children
    ensures max.Some? && max.value > 0 ==> |r| == if max.value < |children| then max.value else |children|
  {
    if max.Some? && max.value != 0 then Slice0(children, max.value) else children
  }

  /** How `{excess && ...}` renders: false renders nothing, the number 0
      renders as the text "0", any other number as the "+n" label. */
  datatype ExcessRender = NoLabel | Text(s: string) | ExcessLabel(s: string)

  /** `excess = max != null && validChildren.length - max`, as rendered. */
  function ExcessAsWritten(count: nat, max: Option<int>): (r: ExcessRender)
    ensures max.None? ==> r == NoLabel
    ensures max.Some? && count == max.value ==> r == Text("0")
    ensures max.Some? && count != max.value ==> r == ExcessLabel("+" + IntToString(count - max.value))
  {
    if max.None? then NoLabel
    else
      var excess := count - max.value;
      if excess == 0 then Text("0") else ExcessLabel("+" + IntToString(excess))
  }

  /** Fewer avatars than max give the label "+-2", an exact fit the text
      "0", and max 0 shows a "+3" label although no avatar is hidden. */
  lemma ExcessAsWrittenCounterexamples()
    ensures ExcessAsWritten(2, Some(4)) == ExcessLabel("+-2")
    ensures ExcessAsWritten(4, Some(4)) == Text("0")
    ensures ExcessAsWritten(3, Some(0)) == ExcessLabel("+3") && |WithinMax([1, 2, 3], Some(0))| == 3
  {
    assert IntToString(-2) == "-" + NatToString(2);
  }

  /** The excess label as intended: the number of avatars the group hides,
      shown only when there is at least one. */
  function Excess<T>(children: seq<T>, max: Option<int>): (r: ExcessRender)
    ensures r != NoLabel <==> |WithinMax(children, max)| < |children|
    ensures r != NoLabel ==> r == ExcessLabel("+" + IntToString(|children| - |WithinMax(children, max)|))
  {
    var hidden := |children| - |WithinMax(children, max)|;
    if hidden > 0 then ExcessLabel("+" + IntToString(hidden)) else NoLabel
  }

  /** The two agree whenever max is positive and below the number of avatars. */
  lemma ExcessAgrees<T>(children: seq<T>, m: int)
    requires 0 < m < |children|
    ensures Excess(children, Some(m)) == ExcessAsWritten(|children|, Some(m))
  {
  }

  /** The label reads back as the number of hidden avatars. */
  lemma ExcessReads<T>(children: seq<T>, max: Option<int>)
    requires Excess(children, max) != NoLabel
    ensures ParseDecimal(Excess(children, max).s[1..]) == Some(|children| - |WithinMax(children, max)|)
  {
    var n := |children| - |WithinMax(children, max)|;
    assert Excess(children, max).s[1..] == IntToString(n);
    DecimalRoundTrip(n);
  }

  function Reverse<T>(s: seq<T>): (r: seq<T>)
    ensures |r| == |s| && forall i :: 0 <= i < |s| ==> r[i] == s[|s| - 1 - i]
    decreases |s|
  {
    if s == [] then [] else Reverse(s[1..]) + [s[0]]
  }

  /** The props one reversed child is cloned with. */
  function CloneProps(child: Dict<Value>, index: nat, size: Value, spacing: Value, borderColor: Value): Dict<Value> {
    Spread(child, [("mr", if index == 0 then Num(0) else spacing), ("size", size),
                   ("borderColor", Or(Lookup(child, "borderColor"), borderColor)), ("showBorder", Bool(true))])
  }

  /** The clones of the kept avatars, last kept first. */
  function Clones(children: seq<Dict<Value>>, max: Option<int>, size: Value, spacing: Value, borderColor: Value): (r: seq<Dict<Value>>)
    ensures |r| == |WithinMax(children, max)|
  {
    var kept := Reverse(WithinMax(children, max));
    seq(|kept|, i requires 0 <= i < |kept| => CloneProps(kept[i], i, size, spacing, borderColor))
  }

  /** Clone i is the kept avatar counted from the end; the first clone has no
      margin and the others the spacing; each gets the group size, a border,
      and its own border colour when it has a truthy one. */
  lemma CloneSpec(children: seq<Dict<Value>>, max: Option<int>, size: Value, spacing: Value, borderColor: Value, i: nat)
    requires i < |Clones(children, max, size, spacing, borderColor)|
    ensures var kept := WithinMax(children, max);
      var c := Clones(children, max, size, spacing, borderColor)[i];
      var child := kept[|kept| - 1 - i];
      Lookup(c, "mr") == (if i == 0 then Num(0) else spacing) &&
      Lookup(c, "size") == size &&
      Lookup(c, "showBorder") == Bool(true) &&
      Lookup(c, "borderColor") == Or(Lookup(child, "borderColor"), borderColor) &&
      (forall k :: k !in {"mr", "size", "borderColor", "showBorder"} ==> Get(c, k) == Get(child, k))
  {
    var kept := WithinMax(children, max);
    var child := kept[|kept| - 1 - i];
    var o := [("mr", if i == 0 then Num(0) else spacing), ("size", size),
              ("borderColor", Or(Lookup(child, "borderColor"), borderColor)), ("showBorder", Bool(true))];
    assert KeySet(o[3..]) == {"showBorder"};
    assert KeySet(o[2..]) == {"borderColor", "showBorder"};
    assert KeySet(o[1..]) == {"size", "borderColor", "showBorder"};
    assert KeySet(o) == {"mr", "size", "borderColor", "showBorder"};
    assert Distinct(o[3..]);
    assert Distinct(o);
    forall k
      ensures Get(Spread(child, o), k) == if k in KeySet(o) then Get(o, k) else Get(child, k)
    {
      GetSpread(child, o, k);
    }
    GetAt(o, 0, "mr");
    GetAt(o, 1, "size");
    GetAt(o, 2, "borderColor");
    GetAt(o, 3, "showBorder");
  }

  /** The group's clones with its `size = 'md'` and `spacing = '-0.8rem'`
      defaults applied. */
  function GroupClones(children: seq<Dict<Value>>, max: Option<int>, size: Value, spacing: Value, borderColor: Value): (r: seq<Dict<Value>>)
    ensures |r| == |WithinMax(children, max)|
  {
    Clones(children, max, Defaulted(size, Str("md")), Defaulted(spacing, Str("-0.8rem")), borderColor)
  }

  /** Without size and spacing props every clone is medium and all but the
      first are pulled left by 0.8rem. */
  lemma GroupCloneDefaults(children: seq<Dict<Value>>, max: Option<int>, borderColor: Value, i: nat)
    requires i < |GroupClones(children, max, Undefined, Undefined, borderColor)|
    ensures Lookup(GroupClones(children, max, Undefined, Undefined, borderColor)[i], "size") == Str("md")
    ensures Lookup(GroupClones(children, max, Undefined, Undefined, borderColor)[i], "mr") ==
      if i == 0 then Num(0) else Str("-0.8rem")
  {
    CloneSpec(children, max, Str("md"), Str("-0.8rem"), borderColor, i);
  }
}
