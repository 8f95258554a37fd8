/**
 * The badge (lib/Badge.tsx): the text it shows, when it hides itself, and
 * where it sits on the element it decorates. Colours come from the theme
 * through a colour library that is not part of this model, so the outline
 * colour is a parameter.
 */
module Badge {
  import opened Js
  import opened Objects

  /** The props the badge logic reads; None is an absent prop. */
  datatype BadgeProps = BadgeProps(
    count: Option<int>, max: Option<int>, isInvisible: Option<bool>, showZero: Option<bool>,
    variant: Option<string>, overlap: Option<string>, anchorVertical: Option<string>,
    anchorHorizontal: Option<string>, outlined: Option<bool>)

  function OrElse<T>(o: Option<T>, d: T): T {
    if o.Some? then o.value else d
  }

  // ---------------------------------------------------------------------
  // displayValue

  /** The badge text: nothing for a dot, `${max}+` above max, else the count
      (count defaults to 0, max to 99, variant to standard). */
  function DisplayValue(props: BadgeProps): string {
    var variant := OrElse(props.variant, "standard");
    var count := OrElse(props.count, 0);
    var max := OrElse(props.max, 99);
    if variant != "dot" then
      if count > max then IntToString(max) + "+" else IntToString(count)
    else ""
  }

  /** Reading the text back: a count up to max reads as that count, a larger
      one as max followed by '+', and a dot shows nothing. */
  lemma DisplayValueReads(props: BadgeProps)
    ensures props.variant == Some("dot") ==> DisplayValue(props) == ""
    ensures props.variant != Some("dot") && OrElse(props.count, 0) <= OrElse(props.max, 99) ==>
      ParseDecimal(DisplayValue(props)) == Some(OrElse(props.count, 0))
    ensures props.variant != Some("dot") && OrElse(props.count, 0) > OrElse(props.max, 99) ==>
      |DisplayValue(props)| >= 2 && DisplayValue(props)[|DisplayValue(props)| - 1] == '+' &&
      ParseDecimal(DisplayValue(props)[..|DisplayValue(props)| - 1]) == Some(OrElse(props.max, 99))
  {
    var count := OrElse(props.count, 0);
    var max := OrElse(props.max, 99);
    DecimalRoundTrip(count);
    DecimalRoundTrip(max);
    if props.variant != Some("dot") && count > max {
      var s := IntToString(max) + "+";
      IntToStringNonEmpty(max);
      assert s[..|s| - 1] == IntToString(max);
    }
  }

  lemma IntToStringNonEmpty(i: int)
    ensures |IntToString(i)| >= 1
  {
    if i < 0 { NatToStringDigits(-i); } else { NatToStringDigits(i); }
  }

  /** Without props the badge shows 0. */
  lemma DefaultDisplay()
    ensures DisplayValue(BadgeProps(None, None, None, None, None, None, None, None, None)) == "0"
  {
  }

  // ---------------------------------------------------------------------
  // useBadgeStyle

  /** The badge hides itself unless asked to show a zero count. The source's
      second test, `count == null`, never holds once count defaults to 0. */
  function Invisible(props: BadgeProps): (r: bool)
    ensures r <==> props.isInvisible == Some(true) ||
                   (OrElse(props.count, 0) == 0 && !OrElse(props.showZero, false))
  {
    var invisible := OrElse(props.isInvisible, false);
    var showZero := OrElse(props.showZero, false);
    var count := OrElse(props.count, 0);
    if !invisible && (count == 0 && !showZero) then true else invisible
  }

  /** The outline shadow, given the resolved outline colour. */
  function BoxShadow(props: BadgeProps, shadowColor: string): (r: string)
    ensures OrElse(props.outlined, false) && !Invisible(props) ==> r == "0 0 0 2px " + shadowColor
    ensures !(OrElse(props.outlined, false) && !Invisible(props)) ==> r == "none"
  {
    if OrElse(props.outlined, false) && !Invisible(props) then "0 0 0 2px " + shadowColor else "none"
  }

  /** dot(): the small round shape, only for the dot variant. */
  function Dot(props: BadgeProps): (r: Value)
    ensures props.variant != Some("dot") ==> r == Undefined
    ensures props.variant == Some("dot") ==>
      (r.Obj? && Keys(r.entries) == ["borderRadius", "height", "minWidth", "padding"] &&
      Lookup(r.entries, "borderRadius") == Str("full") && Lookup(r.entries, "height") == Num(3) &&
      Lookup(r.entries, "minWidth") == Num(3) && Lookup(r.entries, "padding") == Num(0))
  {
    if props.variant != Some("dot") then Undefined
    else Obj([("borderRadius", Str("full")), ("height", Num(3)), ("minWidth", Num(3)), ("padding", Num(0))])
  }

  /** anchors(), branch by branch as the source writes it. */
  function Anchors(props: BadgeProps): Value {
    var invisible := Invisible(props);
    var overlap := OrElse(props.overlap, "rectangle");
    var v := OrElse(props.anchorVertical, "top");
    var h := OrElse(props.anchorHorizontal, "right");
    if overlap == "rectangle" then
      if v == "top" && h == "right" then
        Obj([("top", Num(0)), ("right", Num(0)),
             ("transform", Str(if invisible then "scale(0) translate(50%, -50%)" else "scale(1) translate(50%, -50%)")),
             ("transformOrigin", Str("100% 0%"))])
      else if v == "top" && h == "left" then
        Obj([("top", Num(0)), ("left", Num(0)),
             ("transform", Str(if invisible then "scale(0) translate(-50%, -50%)" else "scale(1) translate(-50%, -50%)")),
             ("transformOrigin", Str("0% 0%"))])
      else if v == "bottom" && h == "right" then
        Obj([("bottom", Num(0)), ("right", Num(0)),
             ("transform", Str(if invisible then "scale(0) translate(50%, 50%)" else "scale(1) translate(50%, 50%)")),
             ("transformOrigin", Str("100% 100%"))])
      else if v == "bottom" && h == "left" then
        Obj([("bottom", Num(0)), ("left", Num(0)),
             ("transform", Str(if invisible then "scale(0) translate(-50%, 50%)" else "scale(1) translate(-50%, 50%)")),
             ("transformOrigin", Str("0% 100%"))])
      else Undefined
    else if overlap == "circle" then
      if v == "top" && h == "right" then
        Obj([("top", Str("14%")), ("right", Str("14%")),
             ("transform", Str(if invisible then "scale(0) translate(50%, -50%)" else "scale(1) translate(50%, -50%)")),
             ("transformOrigin", Str("100% 0%"))])
      else if v == "top" && h == "left" then
        Obj([("top", Str("14%")), ("left", Str("14%")),
             ("transform", Str(if invisible then "scale(0) translate(-50%, -50%)" else "scale(1) translate(-50%, -50%)")),
             ("transformOrigin", Str("0% 0%"))])
      else if v == "bottom" && h == "right" then
        Obj([("bottom", Str("14%")), ("right", Str("14%")),
             ("transform", Str(if invisible then "scale(0) translate(50%, 50%)" else "scale(1) translate(50%, 50%)")),
             ("transformOrigin", Str("100% 100%"))])
      else if v == "bottom" && h == "left" then
        Obj([("bottom", Str("14%")), ("left", Str("14%")),
             ("transform", Str(if invisible then "scale(0) translate(-50%, 50%)" else "scale(1) translate(-50%, 50%)")),
             ("transformOrigin", Str("0% 100%"))])
      else Undefined
    else Undefined
  }

  predicate IsVertical(v: string) { v == "top" || v == "bottom" }
  predicate IsHorizontal(h: string) { h == "left" || h == "right" }

  /** The sign of the translation that moves the badge onto its corner. */
  function TranslateX(h: string): string { if h == "right" then "50%" else "-50%" }
  function TranslateY(v: string): string { if v == "top" then "-50%" else "50%" }
  function OriginX(h: string): string { if h == "right" then "100%" else "0%" }
  function OriginY(v: string): string { if v == "top" then "0%" else "100%" }

  function Transform(v: string, h: string, invisible: bool): string {
    (if invisible then "scale(0)" else "scale(1)") + " translate(" + TranslateX(h) + ", " + TranslateY(v) + ")"
  }

  function Origin(v: string, h: string): string {
    OriginX(h) + " " + OriginY(v)
  }

  /** The same placement stated once for all eight corners. */
  function Placement(offset: Value, v: string, h: string, invisible: bool): Value {
    Obj([(v, offset), (h, offset), ("transform", Str(Transform(v, h, invisible))), ("transformOrigin", Str(Origin(v, h)))])
  }

  function OverlapOffset(overlap: string): Value {
    if overlap == "rectangle" then Num(0) else Str("14%")
  }

  /** Every branch of anchors() is that placement: the badge sits at the
      anchored corner, offset 0 for a rectangle and 14% for a circle, scaled
      to nothing while invisible; any other overlap or anchor gives nothing. */
  lemma AnchorsArePlacements(props: BadgeProps)
    ensures var overlap := OrElse(props.overlap, "rectangle");
      var v := OrElse(props.anchorVertical, "top");
      var h := OrElse(props.anchorHorizontal, "right");
      Anchors(props) == (if (overlap == "rectangle" || overlap == "circle") && IsVertical(v) && IsHorizontal(h)
                          then Placement(OverlapOffset(overlap), v, h, Invisible(props)) else Undefined)
  {
    var v := OrElse(props.anchorVertical, "top");
    var h := OrElse(props.anchorHorizontal, "right");
    var inv := Invisible(props);
    if v == "top" && h == "right" {
      TopRight(inv);
    } else if v == "top" && h == "left" {
      TopLeft(inv);
    } else if v == "bottom" && h == "right" {
      BottomRight(inv);
    } else if v == "bottom" && h == "left" {
      BottomLeft(inv);
    }
  }

  lemma TopRight(invisible: bool)
    ensures Transform("top", "right", invisible) ==
      if invisible then "scale(0) translate(50%, -50%)" else "scale(1) translate(50%, -50%)"
    ensures Origin("top", "right") == "100% 0%"
  {
    assert TranslateX("right") == "50%" && TranslateY("top") == "-50%";
    assert OriginX("right") == "100%" && OriginY("top") == "0%";
    assert "100%" + " " + "0%" == "100% 0%";
    assert " translate(" + "50%" + ", " + "-50%" + ")" == " translate(50%, -50%)";
  }

  lemma TopLeft(invisible: bool)
    ensures Transform("top", "left", invisible) ==
      if invisible then "scale(0) translate(-50%, -50%)" else "scale(1) translate(-50%, -50%)"
    ensures Origin("top", "left") == "0% 0%"
  {
    assert TranslateX("left") == "-50%" && TranslateY("top") == "-50%";
    assert OriginX("left") == "0%" && OriginY("top") == "0%";
    assert "0%" + " " + "0%" == "0% 0%";
    assert " translate(" + "-50%" + ", " + "-50%" + ")" == " translate(-50%, -50%)";
  }

  lemma BottomRight(invisible: bool)
    ensures Transform("bottom", "right", invisible) ==
      if invisible then "scale(0) translate(50%, 50%)" else "scale(1) translate(50%, 50%)"
    ensures Origin("bottom", "right") == "100% 100%"
  {
    assert TranslateX("right") == "50%" && TranslateY("bottom") == "50%";
    assert OriginX("right") == "100%" && OriginY("bottom") == "100%";
    assert "100%" + " " + "100%" == "100% 100%";
    assert " translate(" + "50%" + ", " + "50%" + ")" == " translate(50%, 50%)";
  }

  lemma BottomLeft(invisible: bool)
    ensures Transform("bottom", "left", invisible) ==
      if invisible then "scale(0) translate(-50%, 50%)" else "scale(1) translate(-50%, 50%)"
    ensures Origin("bottom", "left") == "0% 100%"
  {
    assert TranslateX("left") == "-50%" && TranslateY("bottom") == "50%";
    assert OriginX("left") == "0%" && OriginY("bottom") == "100%";
    assert "0%" + " " + "100%" == "0% 100%";
    assert " translate(" + "-50%" + ", " + "50%" + ")" == " translate(-50%, 50%)";
  }

  /** The default placement is the top right corner of a rectangle. */
  lemma DefaultAnchors(props: BadgeProps)
    requires props.overlap.None? && props.anchorVertical.None? && props.anchorHorizontal.None?
    ensures Anchors(props) == Placement(Num(0), "top", "right", Invisible(props))
  {
    AnchorsArePlacements(props);
  }
}
