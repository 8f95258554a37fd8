/**
 * JavaScript values and the built-in operations of the language that the
 * library's code relies on: truthiness, `??`, `||`, number-to-string and
 * `parseInt`, and the string methods `split`, `join`, `startsWith` and
 * `includes`.
 *
 * JavaScript numbers are modelled as integers and strings as sequences of
 * characters, one character per UTF-16 code unit.
 */
module Js {

  datatype Option<T> = None | Some(value: T)

  /** A JavaScript value, as far as the modelled code looks into it. Objects
      keep their own keys in insertion order (see module Objects); a
      function is known by an identity only. */
  datatype Value =
    | Undefined
    | Null
    | Bool(b: bool)
    | Num(n: int)
    | Str(s: string)
    | Obj(entries: seq<(string, Value)>)
    | Arr(items: seq<Value>)
    | Func(id: nat)

  /** `v == null`, the loose comparison that holds for null and undefined. */
  predicate Nullish(v: Value) {
    v.Undefined? || v.Null?
  }

  /** ToBoolean: the falsy values are undefined, null, false, 0 and ''. */
  predicate Truthy(v: Value) {
    match v
    case Undefined => false
    case Null => false
    case Bool(b) => b
    case Num(n) => n != 0
    case Str(s) => s != ""
    case _ => true
  }

  /** `a ?? b` */
  function Coalesce(a: Value, b: Value): Value {
    if Nullish(a) then b else a
  }

  /** `a || b`: the first operand when it is truthy, otherwise the second. */
  function Or(a: Value, b: Value): Value {
    if Truthy(a) then a else b
  }

  /** An optional value read as a JavaScript value (None is undefined). */
  function OptStr(o: Option<string>): Value {
    match o
    case None => Undefined
    case Some(s) => Str(s)
  }

  // ---------------------------------------------------------------------
  // Decimal digits

  predicate IsDigit(c: char) {
    '0' <= c <= '9'
  }

  function DigitChar(d: nat): (c: char)
    requires d < 10
    ensures IsDigit(c) && (c as int) - ('0' as int) == d
  {
    "0123456789"[d]
  }

  function DigitValue(c: char): nat
    requires IsDigit(c)
  {
    (c as int) - ('0' as int)
  }

  predicate AllDigits(s: string) {
    forall i :: 0 <= i < |s| ==> IsDigit(s[i])
  }

  /** The number a string of decimal digits denotes. */
  function DigitsValue(s: string): nat
    requires AllDigits(s)
    decreases |s|
  {
    if s == [] then 0 else 10 * DigitsValue(s[..|s| - 1]) + DigitValue(s[|s| - 1])
  }

  /** Number.prototype.toString() of a non-negative integer. */
  function NatToString(n: nat): (r: string)
    decreases n
  {
    if n < 10 then [DigitChar(n)] else NatToString(n / 10) + [DigitChar(n % 10)]
  }

  /** Number.prototype.toString() of an integer. */
  function IntToString(i: int): string {
    if i < 0 then "-" + NatToString(-i) else NatToString(i)
  }

  /** The decimal rendering is canonical: digits only, no leading zero, and
      it denotes the number again. */
  lemma {:induction false} NatToStringDigits(n: nat)
    ensures |NatToString(n)| >= 1 && AllDigits(NatToString(n))
    ensures NatToString(n)[0] != '0' || n == 0
    ensures DigitsValue(NatToString(n)) == n
    decreases n
  {
    if n >= 10 {
      NatToStringDigits(n / 10);
      var s := NatToString(n);
      assert s[..|s| - 1] == NatToString(n / 10);
    }
  }

  /** A decimal string to its integer, the inverse of IntToString: an
      optional '-' and a canonical run of digits. */
  function ParseDecimal(s: string): Option<int> {
    if |s| >= 2 && s[0] == '-' && AllDigits(s[1..]) && s[1] != '0' then Some(0 - DigitsValue(s[1..]) as int)
    else if |s| >= 1 && AllDigits(s) && (s[0] != '0' || |s| == 1) then Some(DigitsValue(s))
    else None
  }

  lemma DecimalRoundTrip(i: int)
    ensures ParseDecimal(IntToString(i)) == Some(i)
  {
    if i < 0 {
      var t := NatToString(-i);
      NatToStringDigits(-i);
      var s := "-" + t;
      assert IntToString(i) == s;
      assert s[1..] == t;
      assert |s| >= 2 && s[0] == '-' && AllDigits(s[1..]) && s[1] != '0';
    } else {
      NatToStringDigits(i);
      var s := NatToString(i);
      assert IntToString(i) == s;
      assert !(|s| >= 2 && s[0] == '-');
    }
  }

  // ---------------------------------------------------------------------
  // parseInt

  predicate IsSpace(c: char) {
    c == ' ' || c == '\t' || c == '\n' || c == '\r'
  }

  function TrimStart(s: string): (r: string)
    decreases |s|
  {
    if |s| > 0 && IsSpace(s[0]) then TrimStart(s[1..]) else s
  }

  /** The longest prefix of s made of decimal digits. */
  function DigitPrefix(s: string): (r: string)
    ensures AllDigits(r) && |r| <= |s| && r == s[..|r|]
    decreases |s|
  {
    if |s| > 0 && IsDigit(s[0]) then [s[0]] + DigitPrefix(s[1..]) else ""
  }

  /** parseInt(s) for a decimal string: leading white space and a sign are
      skipped, then the longest run of digits is read; None is NaN. */
  function ParseInt(s: string): Option<int> {
    var t := TrimStart(s);
    var neg := |t| > 0 && t[0] == '-';
    var u := if |t| > 0 && (t[0] == '-' || t[0] == '+') then t[1..] else t;
    var d := DigitPrefix(u);
    if d == "" then None
    else if neg then Some(0 - DigitsValue(d) as int)
    else Some(DigitsValue(d))
  }

  lemma {:induction false} DigitPrefixOfDigits(d: string, suffix: string)
    requires AllDigits(d)
    requires suffix == "" || !IsDigit(suffix[0])
    ensures DigitPrefix(d + suffix) == d
    decreases |d|
  {
    if d != [] {
      assert (d + suffix)[1..] == d[1..] + suffix;
      DigitPrefixOfDigits(d[1..], suffix);
      assert [d[0]] + d[1..] == d;
    } else {
      assert d + suffix == suffix;
    }
  }

  /** parseInt reads back a decimal number followed by a unit. */
  lemma ParseIntWithUnit(n: nat, suffix: string)
    requires suffix == "" || !IsDigit(suffix[0])
    ensures ParseInt(NatToString(n) + suffix) == Some(n)
  {
    NatToStringDigits(n);
    var s := NatToString(n) + suffix;
    assert IsDigit(s[0]);
    assert TrimStart(s) == s;
    DigitPrefixOfDigits(NatToString(n), suffix);
  }

  // ---------------------------------------------------------------------
  // String conversion

  /** String(v), the conversion a template literal applies. A function is
      rendered by a placeholder, since its source text is not modelled. */
  function ToStr(v: Value): string
    decreases v
  {
    match v
    case Undefined => "undefined"
    case Null => "null"
    case Bool(b) => if b then "true" else "false"
    case Num(n) => IntToString(n)
    case Str(s) => s
    case Obj(_) => "[object Object]"
    case Arr(items) => JoinItems(items, 0)
    case Func(_) => "function"
  }

  /** Array.prototype.join(',') from position i, null and undefined as ''. */
  function JoinItems(items: seq<Value>, i: nat): string
    requires i <= |items|
    decreases Arr(items), |items| - i
  {
    if i == |items| then ""
    else
      assert items[i] in items;
      var s := if Nullish(items[i]) then "" else ToStr(items[i]);
      if i + 1 == |items| then s else s + "," + JoinItems(items, i + 1)
  }

  // ---------------------------------------------------------------------
  // split, join, startsWith, includes

  /** s.split(c) for a one-character separator. */
  function Split(s: string, c: char): (r: seq<string>)
    ensures |r| >= 1
    decreases |s|
  {
    if s == [] then [""]
    else
      var rest := Split(s[1..], c);
      if s[0] == c then [""] + rest else [[s[0]] + rest[0]] + rest[1..]
  }

  /** parts.join(sep) */
  function Join(parts: seq<string>, sep: string): string
    decreases |parts|
  {
    if |parts| == 0 then ""
    else if |parts| == 1 then parts[0]
    else parts[0] + sep + Join(parts[1..], sep)
  }

  /** The text before the first c (all of s when c does not occur). */
  function Before(s: string, c: char): (r: string)
    ensures c !in r && |r| <= |s| && r == s[..|r|]
    ensures |r| < |s| ==> s[|r|] == c
    ensures c !in s ==> r == s
    decreases |s|
  {
    if s == [] || s[0] == c then "" else [s[0]] + Before(s[1..], c)
  }

  /** The first piece of a split is the text before the first separator. */
  lemma {:induction false} SplitFirst(s: string, c: char)
    ensures Split(s, c)[0] == Before(s, c)
    decreases |s|
  {
    if s != [] && s[0] != c {
      SplitFirst(s[1..], c);
    }
  }

  lemma JoinCons(x: string, y: string, t: seq<string>, sep: string)
    ensures Join([x + y] + t, sep) == x + Join([y] + t, sep)
  {
    if |t| > 0 {
      assert ([x + y] + t)[1..] == t;
      assert ([y] + t)[1..] == t;
    }
  }

  /** Joining the pieces of a split with the separator gives the string back. */
  lemma {:induction false} JoinSplit(s: string, c: char)
    ensures Join(Split(s, c), [c]) == s
    decreases |s|
  {
    if s != [] {
      var rest := Split(s[1..], c);
      JoinSplit(s[1..], c);
      if s[0] == c {
        assert ([""] + rest)[1..] == rest;
      } else {
        JoinCons([s[0]], rest[0], rest[1..], [c]);
        assert [rest[0]] + rest[1..] == rest;
      }
    }
  }

  lemma {:induction false} SplitPrefix(p: string, t: string, c: char)
    requires c !in p
    ensures Split(p + t, c) == [p + Split(t, c)[0]] + Split(t, c)[1..]
    decreases |p|
  {
    if p != [] {
      assert (p + t)[1..] == p[1..] + t;
      SplitPrefix(p[1..], t, c);
      assert [p[0]] + (p[1..] + Split(t, c)[0]) == p + Split(t, c)[0];
    } else {
      assert p + t == t;
      assert p + Split(t, c)[0] == Split(t, c)[0];
      assert [Split(t, c)[0]] + Split(t, c)[1..] == Split(t, c);
    }
  }

  /** Splitting a join gives the pieces back when no piece holds the separator. */
  lemma {:induction false} SplitJoin(parts: seq<string>, c: char)
    requires |parts| >= 1
    requires forall i :: 0 <= i < |parts| ==> c !in parts[i]
    ensures Split(Join(parts, [c]), c) == parts
    decreases |parts|
  {
    if |parts| == 1 {
      SplitPrefix(parts[0], "", c);
      assert parts[0] + "" == parts[0];
    } else {
      var j := Join(parts[1..], [c]);
      SplitJoin(parts[1..], c);
      assert Join(parts, [c]) == parts[0] + ([c] + j);
      SplitPrefix(parts[0], [c] + j, c);
      assert ([c] + j)[1..] == j;
      assert Split([c] + j, c) == [""] + parts[1..];
      assert parts[0] + "" == parts[0];
      assert [parts[0]] + parts[1..] == parts;
    }
  }

  /** a.indexOf(x): the first position holding x, -1 when there is none. */
  function IndexOf<T(==)>(a: seq<T>, x: T): (i: int)
    ensures -1 <= i < |a|
    ensures i == -1 <==> x !in a
    ensures i >= 0 ==> a[i] == x && x !in a[..i]
    decreases |a|
  {
    if a == [] then -1
    else if a[0] == x then 0
    else
      var j := IndexOf(a[1..], x);
      assert j >= 0 ==> a[..j + 1] == [a[0]] + a[1..][..j];
      if j == -1 then -1 else j + 1
  }

  /** s.startsWith(p) */
  predicate StartsWith(s: string, p: string) {
    |p| <= |s| && s[..|p|] == p
  }

  /** s.includes(sub) */
  predicate Includes(s: string, sub: string) {
    exists i :: 0 <= i <= |s| - |sub| && OccursAt(s, sub, i)
  }

  predicate OccursAt(s: string, sub: string, i: int) {
    0 <= i <= |s| - |sub| && s[i..i + |sub|] == sub
  }
}
