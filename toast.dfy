/**
 * Toasts (lib/Toast.tsx): looking a toast up in the toast manager's state,
 * the container style for a position, and the pause/close state a single
 * toast keeps while it is shown.
 */
module Toast {
  import opened Js
  import opened Objects

  datatype ToastPosition = Top | TopRight | TopLeft | Bottom | BottomRight | BottomLeft

  function PositionName(p: ToastPosition): (r: string)
    ensures |r| >= 3
  {
    match p
    case Top => "top"
    case TopRight => "top-right"
    case TopLeft => "top-left"
    case Bottom => "bottom"
    case BottomRight => "bottom-right"
    case BottomLeft => "bottom-left"
  }

  /** A toast id is a string or a number. */
  datatype ToastId = StrId(s: string) | NumId(n: int)

  /** The fields of a toast the queries look at. */
  datatype ToastOptions = ToastOptions(id: ToastId, position: ToastPosition, duration: Option<int>)

  /** The toast manager's state: a list of toasts per position name, in the
      order the state object's keys were created. */
  type ToastState = Dict<seq<ToastOptions>>

  // ---------------------------------------------------------------------
  // ids

  /** a === b */
  predicate StrictEq(a: ToastId, b: ToastId) {
    a == b
  }

  /** Number(s) for the strings a toast id can hold: the empty string is 0,
      an optional '-' followed by decimal digits is that number, anything
      else is NaN (None). */
  function ToNumber(s: string): (r: Option<int>)
    ensures s == "" ==> r == Some(0)
  {
    if s == "" then Some(0)
    else if s[0] == '-' && |s| >= 2 && AllDigits(s[1..]) then Some(0 - DigitsValue(s[1..]))
    else if AllDigits(s) then Some(DigitsValue(s))
    else None
  }

  /** a == b: two strings or two numbers compare as they are, a string and a
      number compare after converting the string to a number. */
  predicate LooseEq(a: ToastId, b: ToastId) {
    if a.StrId? == b.StrId? then a == b
    else if a.StrId? then ToNumber(a.s) == Some(b.n)
    else ToNumber(b.s) == Some(a.n)
  }

  lemma StrictImpliesLoose(a: ToastId, b: ToastId)
    requires StrictEq(a, b)
    ensures LooseEq(a, b) && LooseEq(b, a)
  {
  }

  /** A number is loosely equal to its decimal string, and to no other
      canonical decimal string; the two are never strictly equal. */
  lemma LooseNumberString(n: int, s: string)
    ensures LooseEq(NumId(n), StrId(IntToString(n))) && !StrictEq(NumId(n), StrId(IntToString(n)))
    ensures ParseDecimal(s).Some? && ParseDecimal(s).value != n ==> !LooseEq(NumId(n), StrId(s))
  {
    var m: nat := if n < 0 then -n else n;
    NatToStringDigits(m);
    if n < 0 {
      assert IntToString(n) == "-" + NatToString(m);
      assert ("-" + NatToString(m))[1..] == NatToString(m);
    }
  }

  /** Two concrete ids: loosely but not strictly equal. */
  lemma LooseButNotStrict()
    ensures LooseEq(StrId("7"), NumId(7)) && !StrictEq(StrId("7"), NumId(7))
    ensures LooseEq(StrId(""), NumId(0))
  {
    assert AllDigits("7") && DigitsValue("7") == 7;
  }

  // ---------------------------------------------------------------------
  // queries

  function Matches(t: ToastOptions, id: ToastId, loose: bool): bool {
    if loose then LooseEq(t.id, id) else StrictEq(t.id, id)
  }

  /** arr.findIndex(toast => toast.id === id), or `==` when loose. */
  function FindIndex(arr: seq<ToastOptions>, id: ToastId, loose: bool): (i: int)
    ensures -1 <= i < |arr|
    ensures i == -1 <==> forall j :: 0 <= j < |arr| ==> !Matches(arr[j], id, loose)
    ensures i >= 0 ==> Matches(arr[i], id, loose) && forall j :: 0 <= j < i ==> !Matches(arr[j], id, loose)
    decreases |arr|
  {
    if arr == [] then -1
    else if Matches(arr[0], id, loose) then 0
    else
      var k := FindIndex(arr[1..], id, loose);
      assert forall j :: 1 <= j < |arr| ==> arr[j] == arr[1..][j - 1];
      if k == -1 then -1 else k + 1
  }

  /** findById(arr, id): the first toast whose id is strictly the given one. */
  function FindById(arr: seq<ToastOptions>, id: ToastId): (r: Option<ToastOptions>)
    ensures r.None? <==> forall j :: 0 <= j < |arr| ==> arr[j].id != id
    ensures r.Some? ==> r.value.id == id && r.value == arr[FindIndex(arr, id, false)]
  {
    var i := FindIndex(arr, id, false);
    if i >= 0 then Some(arr[i]) else None
  }

  /** toasts[pos], with undefined read as no toasts. */
  function ListAt(toasts: ToastState, pos: string): seq<ToastOptions> {
    match Get(toasts, pos)
    case None => []
    case Some(l) => l
  }

  predicate HasToast(toasts: ToastState, pos: string, id: ToastId) {
    FindById(ListAt(toasts, pos), id).Some?
  }

  /** The index of the last true flag, -1 when there is none. */
  function LastTrue(flags: seq<bool>): (r: int)
    ensures -1 <= r < |flags|
    ensures r == -1 <==> forall i :: 0 <= i < |flags| ==> !flags[i]
    ensures r >= 0 ==> flags[r] && forall j :: r < j < |flags| ==> !flags[j]
    decreases |flags|
  {
    if flags == [] then -1
    else if flags[|flags| - 1] then |flags| - 1
    else
      var f := flags[..|flags| - 1];
      assert forall i :: 0 <= i < |f| ==> f[i] == flags[i];
      LastTrue(f)
  }

  /** For each key, whether its list holds the id. */
  function Holding(toasts: ToastState, keys: seq<string>, id: ToastId): (r: seq<bool>)
    ensures |r| == |keys| && forall i :: 0 <= i < |keys| ==> r[i] == HasToast(toasts, keys[i], id)
  {
    seq(|keys|, i requires 0 <= i < |keys| => HasToast(toasts, keys[i], id))
  }

  /** The position getToastPosition reports after visiting `keys`: the last
      key whose list holds the id. */
  function LastPosition(toasts: ToastState, keys: seq<string>, id: ToastId): (r: Option<string>)
    ensures r.None? <==> forall i :: 0 <= i < |keys| ==> !HasToast(toasts, keys[i], id)
    ensures r.Some? ==> var k := LastTrue(Holding(toasts, keys, id));
      0 <= k < |keys| && r.value == keys[k] && HasToast(toasts, keys[k], id) &&
      forall j :: k < j < |keys| ==> !HasToast(toasts, keys[j], id)
  {
    var h := Holding(toasts, keys, id);
    var k := LastTrue(h);
    if k >= 0 then Some(keys[k]) else None
  }

  /** getToastPosition(toasts, id) */
  method GetToastPosition(toasts: ToastState, id: ToastId) returns (position: Option<string>)
    ensures position == LastPosition(toasts, Keys(toasts), id)
  {
    var keys := Keys(toasts);
    position := None;
    for i := 0 to |keys|
      invariant position == LastPosition(toasts, keys[..i], id)
    {
      var h := Holding(toasts, keys[..i + 1], id);
      assert h[..i] == Holding(toasts, keys[..i], id);
      if FindById(ListAt(toasts, keys[i]), id).Some? {
        position := Some(keys[i]);
      }
    }
    assert keys[..|keys|] == keys;
  }

  datatype FoundToast = FoundToast(position: Option<string>, index: int)

  /** findToast(toasts, id): the position is found with `===`, the index in
      that position's list with `==`. */
  function FindToast(toasts: ToastState, id: ToastId): (r: FoundToast)
    ensures r.position == LastPosition(toasts, Keys(toasts), id)
  {
    var position := LastPosition(toasts, Keys(toasts), id);
    var index := if position.Some? then FindIndex(ListAt(toasts, position.value), id, true) else -1;
    FoundToast(position, index)
  }

  /** Without a position the index is -1; with one it is a real index, no
      later than the strict match, of a toast whose id is loosely the one
      asked for. */
  lemma FindToastIndex(toasts: ToastState, id: ToastId)
    ensures FindToast(toasts, id).position.None? ==> FindToast(toasts, id).index == -1
    ensures FindToast(toasts, id).position.Some? ==>
      var l := ListAt(toasts, FindToast(toasts, id).position.value);
      0 <= FindToast(toasts, id).index <= FindIndex(l, id, false) &&
      LooseEq(l[FindToast(toasts, id).index].id, id)
  {
    var r := FindToast(toasts, id);
    if r.position.Some? {
      var l := ListAt(toasts, r.position.value);
      var keys := Keys(toasts);
      var k := FindIndex(l, id, false);
      assert 0 <= k && StrictEq(l[k].id, id);
      StrictImpliesLoose(l[k].id, id);
      assert Matches(l[k], id, true);
    }
  }

  /** isVisible(toasts, id), as written: every list visited overwrites
      `found`, so only the last list decides. */
  method IsVisible(toasts: ToastState, id: ToastId) returns (visible: bool)
    ensures visible == (|toasts| > 0 && FindById(toasts[|toasts| - 1].1, id).Some?)
  {
    var found: Option<ToastOptions> := None;
    for i := 0 to |toasts|
      invariant found == if i == 0 then None else FindById(toasts[i - 1].1, id)
    {
      found := FindById(toasts[i].1, id);
    }
    visible := found.Some?;
  }

  /** A toast shown at the first position is reported invisible when the
      last position is empty. */
  lemma IsVisibleMissesEarlierPositions()
    ensures var t := ToastOptions(NumId(1), Top, None);
      var toasts := [("top", [t]), ("bottom", [])];
      HasToast(toasts, "top", NumId(1)) && FindById(toasts[|toasts| - 1].1, NumId(1)).None?
  {
    var t := ToastOptions(NumId(1), Top, None);
    var toasts := [("top", [t]), ("bottom", [])];
    assert Get(toasts, "top") == Some([t]);
    assert FindIndex([t], NumId(1), false) == 0;
  }

  /** isVisible as its documentation describes it: the toast is still in
      some position's list. */
  function IsVisibleAnywhere(toasts: ToastState, id: ToastId): (r: bool)
    ensures r <==> exists i :: 0 <= i < |toasts| && FindById(toasts[i].1, id).Some?
  {
    exists i :: 0 <= i < |toasts| && FindById(toasts[i].1, id).Some?
  }

  /** In a state without repeated position names the corrected query agrees
      with getToastPosition: visible exactly when a position is found. */
  lemma VisibleIffPosition(toasts: ToastState, id: ToastId)
    requires Distinct(toasts)
    ensures IsVisibleAnywhere(toasts, id) <==> LastPosition(toasts, Keys(toasts), id).Some?
  {
    var keys := Keys(toasts);
    if IsVisibleAnywhere(toasts, id) {
      var i :| 0 <= i < |toasts| && FindById(toasts[i].1, id).Some?;
      DistinctAt(toasts, i);
      assert HasToast(toasts, keys[i], id);
    }
    if LastPosition(toasts, keys, id).Some? {
      var i := LastTrue(Holding(toasts, keys, id));
      DistinctAt(toasts, i);
      assert FindById(toasts[i].1, id).Some?;
    }
  }

  /** In a dictionary without repeated keys, the key at index i reads the
      value at index i. */
  lemma {:induction false} DistinctAt<V>(d: Dict<V>, i: nat)
    requires Distinct(d) && i < |d|
    ensures Get(d, d[i].0) == Some(d[i].1)
    decreases i
  {
    if i > 0 {
      DistinctAt(d[1..], i - 1);
      KeySetIndex(d[1..], d[i].0);
      assert d[1..][i - 1] == d[i];
    }
  }

  // ---------------------------------------------------------------------
  // getToastStyle

  /** getToastStyle(position): builds the style object and moves alignItems
      to the side the position names. */
  method GetToastStyle(position: ToastPosition) returns (style: Dict<Value>)
    ensures Keys(style) == ["display", "flexDirection", "alignItems"]
    ensures Lookup(style, "display") == Str("flex") && Lookup(style, "flexDirection") == Str("column")
    ensures Lookup(style, "alignItems") ==
      if Includes(PositionName(position), "right") then Str("flex-end")
      else if Includes(PositionName(position), "left") then Str("flex-start")
      else Str("center")
  {
    style := [("display", Str("flex")), ("flexDirection", Str("column")), ("alignItems", Str("center"))];
    if Includes(PositionName(position), "right") {
      style := Put(style, "alignItems", Str("flex-end"));
    } else if Includes(PositionName(position), "left") {
      style := Put(style, "alignItems", Str("flex-start"));
    }
    GetAt(style, 0, "display");
    GetAt(style, 1, "flexDirection");
    GetAt(style, 2, "alignItems");
  }

  /** Where each position's toasts line up. */
  function Alignment(position: ToastPosition): string {
    match position
    case TopRight | BottomRight => "flex-end"
    case TopLeft | BottomLeft => "flex-start"
    case Top | Bottom => "center"
  }

  /** The substring tests pick the alignment each position name means. */
  lemma IncludesPicksAlignment(position: ToastPosition)
    ensures (if Includes(PositionName(position), "right") then "flex-end"
             else if Includes(PositionName(position), "left") then "flex-start"
             else "center") == Alignment(position)
  {
    var s := PositionName(position);
    match position
    case TopRight =>
      assert OccursAt(s, "right", 4);
    case BottomRight =>
      assert OccursAt(s, "right", 7);
    case TopLeft =>
      NoOccurrence(s, "right", 0);
      assert OccursAt(s, "left", 4);
    case BottomLeft =>
      NoOccurrence(s, "right", 0);
      assert OccursAt(s, "left", 7);
    case Top =>
      NoOccurrence(s, "right", 0);
      NoOccurrence(s, "left", 0);
    case Bottom =>
      NoOccurrence(s, "right", 0);
      NoOccurrence(s, "left", 0);
  }

  /** A string lacking one of the letters of `sub` does not include it. */
  lemma NoOccurrence(s: string, sub: string, k: nat)
    requires k < |sub| && sub[k] !in s
    ensures !Includes(s, sub)
  {
    forall i | 0 <= i <= |s| - |sub|
      ensures !OccursAt(s, sub, i)
    {
      assert s[i..i + |sub|][k] == s[i + k];
    }
  }

  /** `position = 'bottom'`: a toast without a position sits at the bottom. */
  function ToastPositionOf(position: Option<ToastPosition>): (r: ToastPosition)
    ensures position.None? ==> r == Bottom
    ensures position.Some? ==> r == position.value
  {
    if position.Some? then position.value else Bottom
  }

  /** `y`: toasts at a top position slide in from their own height above. */
  function EnterOffset(position: ToastPosition, height: nat): (r: string)
    ensures Includes(PositionName(position), "top") ==> r == "-" + NatToString(height) + "px"
    ensures !Includes(PositionName(position), "top") ==> r == "0"
  {
    if Includes(PositionName(position), "top") then "-" + NatToString(height) + "px" else "0"
  }

  lemma TopPositionsSlideDown(position: ToastPosition, height: nat)
    ensures EnterOffset(position, height) != "0" <==> position in {Top, TopRight, TopLeft}
  {
    var s := PositionName(position);
    if position in {Top, TopRight, TopLeft} {
      assert OccursAt(s, "top", 0);
    } else {
      NoOccurrence(s, "top", 2);
    }
  }

  // ---------------------------------------------------------------------
  // the Toast component's handler state

  /** The state one toast keeps: the auto-close delay (None while paused or
      when the duration is null) and whether it is shown. */
  datatype TimerState = TimerState(duration: Option<int>, delay: Option<int>, show: bool)

  datatype ToastEvent =
    | DurationChanged(duration: Option<int>)
    | MouseEnter
    | MouseLeave
    | Close
    | RequestClose(requestClose: bool)
    | TimerElapsed

  /** `duration = 5000`: the default applies when the prop is undefined, not
      when it is null. */
  function DurationOf(prop: Option<Option<int>>): (r: Option<int>)
    ensures prop.None? ==> r == Some(5000)
    ensures prop.Some? ==> r == prop.value
  {
    if prop.None? then Some(5000) else prop.value
  }

  function InitialTimer(durationProp: Option<Option<int>>): TimerState {
    TimerState(DurationOf(durationProp), DurationOf(durationProp), true)
  }

  /** How one event changes the state. The timer only fires while a delay
      is set. */
  function Step(s: TimerState, e: ToastEvent): TimerState {
    match e
    case DurationChanged(d) => TimerState(d, d, s.show)
    case MouseEnter => s.(delay := None)
    case MouseLeave => s.(delay := s.duration)
    case Close => s.(show := false)
    case RequestClose(rc) => if rc then s.(show := false) else s
    case TimerElapsed => if s.delay.Some? then s.(show := false) else s
  }

  function Run(s: TimerState, events: seq<ToastEvent>): TimerState
    decreases |events|
  {
    if events == [] then s else Run(Step(s, events[0]), events[1..])
  }

  /** Once hidden, a toast is never shown again. */
  lemma {:induction false} HiddenStaysHidden(s: TimerState, events: seq<ToastEvent>)
    requires !s.show
    ensures !Run(s, events).show
    decreases |events|
  {
    if events != [] {
      HiddenStaysHidden(Step(s, events[0]), events[1..]);
    }
  }

  /** Events never change whether the toast is shown except to hide it, and
      only close, a true requestClose or a running timer hide it. */
  lemma StepShow(s: TimerState, e: ToastEvent)
    ensures Step(s, e).show ==> s.show
    ensures s.show && !Step(s, e).show <==>
      s.show && (e.Close? || (e.RequestClose? && e.requestClose) || (e.TimerElapsed? && s.delay.Some?))
  {
  }

  /** Hovering pauses the timer and leaving resumes it with the duration,
      so a hovered toast outlives its timer. */
  lemma {:induction false} HoverPauses(s: TimerState, n: nat)
    ensures Run(s, [MouseEnter] + seq(n, i => TimerElapsed)).show == s.show
    ensures Run(s, [MouseEnter, MouseLeave]).delay == s.duration
  {
    PausedTimer(s.(delay := None), n);
    assert ([MouseEnter] + seq(n, i => TimerElapsed))[1..] == seq(n, i => TimerElapsed);
    assert [MouseEnter, MouseLeave][1..] == [MouseLeave];
  }

  lemma {:induction false} PausedTimer(s: TimerState, n: nat)
    requires s.delay.None?
    ensures Run(s, seq(n, i => TimerElapsed)) == s
    decreases n
  {
    if n > 0 {
      assert seq(n, i => TimerElapsed)[1..] == seq(n - 1, i => TimerElapsed);
      PausedTimer(s, n - 1);
    }
  }

  /** The callbacks onExited makes. */
  datatype Callback = RequestRemove | CloseComplete

  /** The component's state, updated by its handlers. */
  class ToastComponent {
    var duration: Option<int>
    var delay: Option<int>
    var show: bool

    function State(): TimerState
      reads this
    {
      TimerState(duration, delay, show)
    }

    constructor(durationProp: Option<Option<int>>)
      ensures State() == InitialTimer(durationProp)
    {
      duration := DurationOf(durationProp);
      delay := DurationOf(durationProp);
      show := true;
    }

    /** The effect that runs when the duration prop changes. */
    method SetDuration(d: Option<int>)
      modifies this
      ensures State() == Step(old(State()), DurationChanged(d))
    {
      duration := d;
      delay := d;
    }

    method OnMouseEnter()
      modifies this
      ensures State() == Step(old(State()), MouseEnter)
    {
      delay := None;
    }

    method OnMouseLeave()
      modifies this
      ensures State() == Step(old(State()), MouseLeave)
    {
      delay := duration;
    }

    method OnClose()
      modifies this
      ensures State() == Step(old(State()), Close)
    {
      show := false;
    }

    /** The effect that runs when the requestClose prop changes. */
    method OnRequestClose(requestClose: bool)
      modifies this
      ensures State() == Step(old(State()), RequestClose(requestClose))
    {
      if requestClose {
        show := false;
      }
    }

    /** useTimeout(close, delay) firing. */
    method OnTimeout()
      modifies this
      ensures State() == Step(old(State()), TimerElapsed)
    {
      if delay.Some? {
        show := false;
      }
    }

    /** onExited: asks the manager to remove a hidden toast, then tells the
        caller the toast has closed. */
    method OnExited(hasOnCloseComplete: bool) returns (calls: seq<Callback>)
      ensures RequestRemove in calls <==> !show
      ensures CloseComplete in calls <==> hasOnCloseComplete
      ensures |calls| <= 2 && (RequestRemove in calls && CloseComplete in calls ==> calls == [RequestRemove, CloseComplete])
    {
      calls := [];
      if !show {
        calls := calls + [RequestRemove];
      }
      if hasOnCloseComplete {
        calls := calls + [CloseComplete];
      }
    }
  }
}
