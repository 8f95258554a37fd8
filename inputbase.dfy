/**
 * The base input (lib/InputBase.tsx): how it picks its size and variant
 * from its own props and the enclosing input group, and how it merges its
 * style pieces. The contents of the base, read-only, error, size and
 * variant tables depend on theme colours and are a parameter; the element
 * and addon tables are the source's own.
 */
module InputBase {
  import opened Js
  import opened Objects
  import opened InputGroup
  import opened System
  import Color

  /** The theme-dependent tables of useBaseInputStyle. */
  datatype InputStyles = InputStyles(base: Value, readOnly: Value, error: Value, size: Value, variants: Value)

  function Padding(side: string, n: int): Value {
    Obj([(side, Num(n))])
  }

  const LeftElementStyles: Value := Obj([("xs", Padding("paddingLeft", 8)), ("sm", Padding("paddingLeft", 9)),
    ("md", Padding("paddingLeft", 10)), ("lg", Padding("paddingLeft", 11)), ("xl", Padding("paddingLeft", 12))])
  const RightElementStyles: Value := Obj([("xs", Padding("paddingRight", 8)), ("sm", Padding("paddingRight", 9)),
    ("md", Padding("paddingRight", 10)), ("lg", Padding("paddingRight", 11)), ("xl", Padding("paddingRight", 12))])
  const LeftAddonStyle: Value := Obj([("borderLeftRadius", Num(0))])
  const RightAddonStyle: Value := Obj([("borderRightRadius", Num(0))])

  const TextAreaOmitted: set<string> := {"h", "minH", "height", "minHeight"}

  /** The focus and error border colours: the props, else blue.500 and
      red.500; `??` keeps an empty string. */
  function BorderColors(props: Dict<Value>): (r: (Value, Value))
    ensures Nullish(Lookup(props, "focusBorderColor")) ==> r.0 == Str("blue.500")
    ensures !Nullish(Lookup(props, "focusBorderColor")) ==> r.0 == Lookup(props, "focusBorderColor")
    ensures Nullish(Lookup(props, "errorBorderColor")) ==> r.1 == Str("red.500")
    ensures !Nullish(Lookup(props, "errorBorderColor")) ==> r.1 == Lookup(props, "errorBorderColor")
  {
    (Coalesce(Lookup(props, "focusBorderColor"), Str("blue.500")),
     Coalesce(Lookup(props, "errorBorderColor"), Str("red.500")))
  }

  /** The palette of the default focus colour is blue, of the error colour red. */
  lemma DefaultColorPalettes()
    ensures Color.GetThemeColorName("blue.500") == Some("blue")
    ensures Color.GetThemeColorName("red.500") == Some("red")
  {
    Color.ThemeColorNameOfPath("blue", "500");
    Color.ThemeColorNameOfPath("red", "500");
  }

  function GroupSize(group: Option<GroupContext>): Value {
    if group.Some? then group.value.inputSize else Undefined
  }

  function GroupVariant(group: Option<GroupContext>): Value {
    if group.Some? then group.value.variant else Undefined
  }

  /** inputSize ?? group?.inputSize ?? 'md' */
  function InputSize(props: Dict<Value>, group: Option<GroupContext>): (r: Value)
    ensures !Nullish(Lookup(props, "inputSize")) ==> r == Lookup(props, "inputSize")
    ensures Nullish(Lookup(props, "inputSize")) && !Nullish(GroupSize(group)) ==> r == GroupSize(group)
    ensures Nullish(Lookup(props, "inputSize")) && Nullish(GroupSize(group)) ==> r == Str("md")
  {
    Coalesce(Lookup(props, "inputSize"), Coalesce(GroupSize(group), Str("md")))
  }

  /** props.variant ?? group?.variant ?? 'standard' */
  function InputVariant(props: Dict<Value>, group: Option<GroupContext>): (r: Value)
    ensures !Nullish(Lookup(props, "variant")) ==> r == Lookup(props, "variant")
    ensures Nullish(Lookup(props, "variant")) && !Nullish(GroupVariant(group)) ==> r == GroupVariant(group)
    ensures Nullish(Lookup(props, "variant")) && Nullish(GroupVariant(group)) ==> r == Str("standard")
  {
    Coalesce(Lookup(props, "variant"), Coalesce(GroupVariant(group), Str("standard")))
  }

  /** The own properties a spread of v contributes. */
  function Props(v: Value): Dict<Value> {
    if v.Obj? then v.entries else []
  }

  /** styles.size[size], without the height keys for a textarea. */
  function SizeStyles(styles: InputStyles, size: Value, as_: Value): (r: Dict<Value>)
    ensures as_ != Str("textarea") ==> r == Props(Member(styles.size, ToStr(size)))
  {
    var s := Props(Member(styles.size, ToStr(size)));
    if as_ == Str("textarea") then Omit(s, TextAreaOmitted) else s
  }

  /** A textarea drops exactly the four height keys of its size style. */
  lemma TextareaSizeStyles(styles: InputStyles, size: Value, k: string)
    ensures Get(SizeStyles(styles, size, Str("textarea")), k) ==
      if k in TextAreaOmitted then None else Get(Props(Member(styles.size, ToStr(size))), k)
  {
    GetOmit(Props(Member(styles.size, ToStr(size))), TextAreaOmitted, k);
  }

  /** `flag && v`: v when the slot is mounted, else false, which spreads to
      nothing. */
  function WhenMounted(flag: bool, v: Value): Dict<Value> {
    if flag then Props(v) else []
  }

  /** The nine pieces of inputStyle, in spread order. */
  function Pieces(styles: InputStyles, props: Dict<Value>, group: Option<GroupContext>): (r: seq<Dict<Value>>)
    ensures |r| == 9
  {
    var size := InputSize(props, group);
    var key := ToStr(size);
    var g := if group.Some? then group.value else GroupContext(Undefined, Undefined, Undefined, Undefined, false, false, false, false);
    [Props(styles.base), Props(styles.readOnly), Props(styles.error),
     SizeStyles(styles, size, Lookup(props, "as")),
     Props(Member(styles.variants, ToStr(InputVariant(props, group)))),
     WhenMounted(g.leftElement, Member(LeftElementStyles, key)),
     WhenMounted(g.rightElement, Member(RightElementStyles, key)),
     WhenMounted(g.leftAddon, LeftAddonStyle),
     WhenMounted(g.rightAddon, RightAddonStyle)]
  }

  /** inputStyle: the shallow spread of the pieces. */
  function InputStyle(styles: InputStyles, props: Dict<Value>, group: Option<GroupContext>): Dict<Value> {
    Compose(Pieces(styles, props, group))
  }

  predicate PiecesDistinct(styles: InputStyles, props: Dict<Value>, group: Option<GroupContext>) {
    forall i :: 0 <= i < 9 ==> Distinct(Pieces(styles, props, group)[i])
  }

  /** The merge is shallow: a top-level key of the variant style, such as a
      whole `_focus` block, replaces the base's, read-only's, error's and
      size's value for that key outright. The mounted slots set only
      paddings and radii, so they cannot shadow it. */
  lemma VariantReplacesKey(styles: InputStyles, props: Dict<Value>, group: Option<GroupContext>, k: string)
    requires PiecesDistinct(styles, props, group)
    requires k in KeySet(Pieces(styles, props, group)[4])
    requires k !in {"paddingLeft", "paddingRight", "borderLeftRadius", "borderRightRadius"}
    ensures Get(InputStyle(styles, props, group), k) == Get(Pieces(styles, props, group)[4], k)
  {
    var p := Pieces(styles, props, group);
    forall i | 4 < i < 9
      ensures k !in KeySet(p[i])
    {
      SlotKeys(styles, props, group, i);
    }
    ComposeLastWins(p, 4, k);
  }

  /** The keys a slot piece can set. */
  lemma SlotKeys(styles: InputStyles, props: Dict<Value>, group: Option<GroupContext>, i: nat)
    requires 5 <= i < 9
    ensures KeySet(Pieces(styles, props, group)[i]) <= {"paddingLeft", "paddingRight", "borderLeftRadius", "borderRightRadius"}
  {
    var key := ToStr(InputSize(props, group));
    SidePaddingKeys(LeftElementStyles, "paddingLeft", key);
    SidePaddingKeys(RightElementStyles, "paddingRight", key);
  }

  lemma SidePaddingKeys(table: Value, side: string, key: string)
    requires table == Obj([("xs", Padding(side, 8)), ("sm", Padding(side, 9)),
      ("md", Padding(side, 10)), ("lg", Padding(side, 11)), ("xl", Padding(side, 12))])
    ensures KeySet(Props(Member(table, key))) <= {side}
  {
    var d := table.entries;
    if Get(d, key).Some? {
      var i :| 0 <= i < 5 && d[i].0 == key && (forall j :: 0 <= j < i ==> d[j].0 != key) by {
        GetFirst(d, key);
      }
      GetAt(d, i, key);
    }
  }

  lemma {:induction false} GetFirst<V>(d: Dict<V>, k: string)
    requires Get(d, k).Some?
    ensures exists i :: 0 <= i < |d| && d[i].0 == k && Get(d, k) == Some(d[i].1) && (forall j :: 0 <= j < i ==> d[j].0 != k)
    decreases |d|
  {
    if d[0].0 != k {
      GetFirst(d[1..], k);
      var i :| 0 <= i < |d[1..]| && d[1..][i].0 == k && Get(d[1..], k) == Some(d[1..][i].1) && (forall j :: 0 <= j < i ==> d[1..][j].0 != k);
      assert d[i + 1].0 == k && (forall j :: 0 <= j < i + 1 ==> d[j].0 != k);
    }
  }

  /** Without a group, or with nothing mounted in it, the slots add nothing. */
  lemma UnmountedSlotsAddNothing(styles: InputStyles, props: Dict<Value>, group: Option<GroupContext>)
    requires group.None? || (!group.value.leftElement && !group.value.rightElement &&
                             !group.value.leftAddon && !group.value.rightAddon)
    ensures InputStyle(styles, props, group) == Compose(Pieces(styles, props, group)[..5])
  {
    var p := Pieces(styles, props, group);
    assert p[5] == [] && p[6] == [] && p[7] == [] && p[8] == [];
    assert p[..8][..7] == p[..7] && p[..7][..6] == p[..6] && p[..6][..5] == p[..5];
    assert Compose(p) == Compose(p[..8]);
    assert Compose(p[..8]) == Compose(p[..7]);
    assert Compose(p[..7]) == Compose(p[..6]);
    assert Compose(p[..6]) == Compose(p[..5]);
  }

  /** A mounted left element pads the input by the size's padding. */
  lemma LeftElementPadding(styles: InputStyles, props: Dict<Value>, group: Option<GroupContext>)
    requires PiecesDistinct(styles, props, group)
    requires group.Some? && group.value.leftElement && InputSize(props, group) == Str("md")
    ensures Lookup(InputStyle(styles, props, group), "paddingLeft") == Num(10)
  {
    var p := Pieces(styles, props, group);
    var d := LeftElementStyles.entries;
    GetAt(d, 2, "md");
    assert p[5] == [("paddingLeft", Num(10))];
    forall i | 5 < i < 9
      ensures "paddingLeft" !in KeySet(p[i])
    {
      SidePaddingKeys(RightElementStyles, "paddingRight", "md");
    }
    ComposeLastWins(p, 5, "paddingLeft");
  }
}
