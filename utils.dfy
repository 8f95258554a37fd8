/**
 * Style-system helpers (lib/system/utils.ts): light/dark selection,
 * theme-scale lookup with a leading minus sign, and the truncation
 * shorthand.
 */
module SystemUtils {
  import opened Js
  import opened Objects

  /** mode(light, dark)(props), given props.colorMode. */
  function Mode(light: Value, dark: Value, colorMode: Value): (r: Value)
    ensures colorMode == Str("light") ==> r == light
    ensures colorMode != Str("light") ==> r == dark
  {
    if colorMode == Str("light") then light else dark
  }

  /** value.toString() for a string or a number. */
  function ValueString(value: Value): string
    requires value.Str? || value.Num?
  {
    if value.Str? then value.s else IntToString(value.n)
  }

  predicate IsString(v: Value) { v.Str? }
  predicate IsNumber(v: Value) { v.Num? }

  /** positiveOrNegative(value, scale) */
  function PositiveOrNegative(value: Value, scale: Value): Value
    requires value.Str? || value.Num?
  {
    if !Truthy(scale) then value
    else
      var valueString := ValueString(value);
      var result :=
        if StartsWith(valueString, "-") then
          var raw := Member(scale, valueString[1..]);
          if IsString(raw) then Str("-" + raw.s)
          else if IsNumber(raw) then Num(raw.n * -1)
          else value
        else
          Coalesce(Member(scale, ToStr(value)), value);
      Or(result, value)
  }

  /** Without a scale the value comes back unchanged. */
  lemma NoScale(value: Value, scale: Value)
    requires value.Str? || value.Num?
    requires !Truthy(scale)
    ensures PositiveOrNegative(value, scale) == value
  {
  }

  /** A value without a leading '-' is looked up in the scale; a missing or
      falsy entry falls back to the value. */
  lemma PositiveToken(value: Value, scale: Value)
    requires value.Str? || value.Num?
    requires Truthy(scale) && !StartsWith(ValueString(value), "-")
    ensures PositiveOrNegative(value, scale) ==
      if Truthy(Member(scale, ToStr(value))) then Member(scale, ToStr(value)) else value
  {
  }

  /** '-k' with a string token t gives '-' + t. */
  lemma NegativeStringToken(k: string, scale: Value)
    requires Truthy(scale) && IsString(Member(scale, k))
    ensures PositiveOrNegative(Str("-" + k), scale) == Str("-" + Member(scale, k).s)
  {
    assert ("-" + k)[1..] == k;
  }

  /** '-k' with a numeric token n gives -n (and the value itself when n is 0,
      which is falsy). */
  lemma NegativeNumberToken(k: string, scale: Value)
    requires Truthy(scale) && IsNumber(Member(scale, k))
    ensures PositiveOrNegative(Str("-" + k), scale) ==
      if Member(scale, k).n == 0 then Str("-" + k) else Num(0 - Member(scale, k).n)
  {
    assert ("-" + k)[1..] == k;
  }

  /** '-k' with any other token gives the value back. */
  lemma NegativeOtherToken(value: Value, scale: Value)
    requires value.Str? || value.Num?
    requires Truthy(scale) && StartsWith(ValueString(value), "-")
    requires !IsString(Member(scale, ValueString(value)[1..])) && !IsNumber(Member(scale, ValueString(value)[1..]))
    ensures PositiveOrNegative(value, scale) == value
  {
  }

  /** A numeric token is negated exactly: '-k' resolves to minus what 'k'
      resolves to. */
  lemma NegationSymmetric(k: string, scale: Value)
    requires Truthy(scale) && IsNumber(Member(scale, k)) && Member(scale, k).n != 0
    requires !StartsWith(k, "-")
    ensures PositiveOrNegative(Str(k), scale) == Member(scale, k)
    ensures PositiveOrNegative(Str("-" + k), scale) == Num(0 - PositiveOrNegative(Str(k), scale).n)
  {
    NegativeNumberToken(k, scale);
  }

  /** A negative number is read through its decimal string, like '-4'. */
  lemma NegativeNumberValue(m: nat, scale: Value)
    requires m > 0 && Truthy(scale) && IsNumber(Member(scale, NatToString(m))) && Member(scale, NatToString(m)).n != 0
    ensures PositiveOrNegative(Num(0 - m), scale) == Num(0 - Member(scale, NatToString(m)).n)
  {
    assert ValueString(Num(0 - m)) == "-" + NatToString(m);
    assert ("-" + NatToString(m))[1..] == NatToString(m);
  }

  // ---------------------------------------------------------------------
  // truncateProp

  /** truncateProp({ isTruncated, noOfLines }) */
  function TruncateProp(isTruncated: Value, noOfLines: Value): (r: Value)
    ensures IsNumber(noOfLines) ==>
      (r.Obj? && Keys(r.entries) == ["overflow", "textOverflow", "display", "WebkitBoxOrient", "WebkitLineClamp"] &&
       Lookup(r.entries, "WebkitLineClamp") == noOfLines &&
       Lookup(r.entries, "overflow") == Str("hidden") && Lookup(r.entries, "textOverflow") == Str("ellipsis") &&
       Lookup(r.entries, "display") == Str("-webkit-box") && Lookup(r.entries, "WebkitBoxOrient") == Str("vertical"))
    ensures !IsNumber(noOfLines) && Truthy(isTruncated) ==>
      (r.Obj? && Keys(r.entries) == ["overflow", "textOverflow", "whiteSpace"] &&
       Lookup(r.entries, "whiteSpace") == Str("nowrap") &&
       Lookup(r.entries, "overflow") == Str("hidden") && Lookup(r.entries, "textOverflow") == Str("ellipsis"))
    ensures !IsNumber(noOfLines) && !Truthy(isTruncated) ==> r == Undefined
  {
    if IsNumber(noOfLines) then
      var d := [("overflow", Str("hidden")), ("textOverflow", Str("ellipsis")),
                ("display", Str("-webkit-box")), ("WebkitBoxOrient", Str("vertical")),
                ("WebkitLineClamp", noOfLines)];
      GetAt(d, 0, "overflow"); GetAt(d, 1, "textOverflow"); GetAt(d, 2, "display");
      GetAt(d, 3, "WebkitBoxOrient"); GetAt(d, 4, "WebkitLineClamp");
      Obj(d)
    else if Truthy(isTruncated) then
      var d := [("overflow", Str("hidden")), ("textOverflow", Str("ellipsis")), ("whiteSpace", Str("nowrap"))];
      GetAt(d, 0, "overflow"); GetAt(d, 1, "textOverflow"); GetAt(d, 2, "whiteSpace");
      Obj(d)
    else Undefined
  }
}
