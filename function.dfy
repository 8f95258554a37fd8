/**
 * Function helpers (lib/util/function.ts): calling a value when it is a
 * function, running a list of event handlers until one prevents the
 * default, and a wrapper that runs a function once.
 */
module Functions {
  import opened Js

  /** runIfFn(valueOrFn, ...args); `apply` stands for calling the function
      with that identity. */
  function RunIfFn(valueOrFn: Value, apply: (nat, seq<Value>) -> Value, args: seq<Value>): (r: Value)
    ensures valueOrFn.Func? ==> r == apply(valueOrFn.id, args)
    ensures !valueOrFn.Func? ==> r == valueOrFn
  {
    if valueOrFn.Func? then apply(valueOrFn.id, args) else valueOrFn
  }

  /** An event handler: its identity and whether it calls preventDefault. */
  datatype Handler = Handler(id: nat, preventsDefault: bool)

  /** The event passed in: None for undefined, else its defaultPrevented. */
  type Event = Option<bool>

  function AfterHandler(event: Event, h: Handler): Event {
    if event.Some? then Some(event.value || h.preventsDefault) else None
  }

  predicate Prevented(event: Event) {
    event.Some? && event.value
  }

  /** The handlers callAllHandlers(...fns)(event) calls, in order, and the
      event afterwards: `fns.some` stops at the first entry after which the
      event is default-prevented. */
  function Calls(fns: seq<Option<Handler>>, event: Event): (r: (seq<nat>, Event))
    decreases |fns|
  {
    if fns == [] then ([], event)
    else
      var called := if fns[0].Some? then [fns[0].value.id] else [];
      var after := if fns[0].Some? then AfterHandler(event, fns[0].value) else event;
      if Prevented(after) then (called, after)
      else
        var rest := Calls(fns[1..], after);
        (called + rest.0, rest.1)
  }

  /** The identities of the defined handlers, in order. */
  function Defined(fns: seq<Option<Handler>>): seq<nat>
    decreases |fns|
  {
    if fns == [] then [] else (if fns[0].Some? then [fns[0].value.id] else []) + Defined(fns[1..])
  }

  method CallAllHandlers(fns: seq<Option<Handler>>, event: Event) returns (called: seq<nat>, after: Event)
    ensures (called, after) == Calls(fns, event)
  {
    called := [];
    after := event;
    var i := 0;
    assert fns[0..] == fns;
    assert [] + Calls(fns, event).0 == Calls(fns, event).0;
    while i < |fns|
      invariant 0 <= i <= |fns|
      invariant Calls(fns, event) == (called + Calls(fns[i..], after).0, Calls(fns[i..], after).1)
      decreases |fns| - i
    {
      var fn := fns[i];
      ghost var before := after;
      ghost var called0 := called;
      ghost var step: seq<nat> := if fn.Some? then [fn.value.id] else [];
      assert fns[i..][0] == fn && fns[i..][1..] == fns[i + 1..];
      if fn.Some? {
        called := called + [fn.value.id];
        after := AfterHandler(after, fn.value);
      }
      i := i + 1;
      assert called == called0 + step;
      if Prevented(after) {
        assert Calls(fns[i - 1..], before) == (step, after);
        return;
      }
      assert Calls(fns[i - 1..], before).0 == step + Calls(fns[i..], after).0;
      assert called0 + (step + Calls(fns[i..], after).0) == called + Calls(fns[i..], after).0;
    }
    assert fns[i..] == [] && called + [] == called;
  }

  /** The handlers called are always the defined ones up to some entry. */
  lemma {:induction false} CallsArePrefix(fns: seq<Option<Handler>>, event: Event)
    ensures exists j :: 0 <= j <= |fns| && Calls(fns, event).0 == Defined(fns[..j])
    decreases |fns|
  {
    if fns == [] {
      assert Calls(fns, event).0 == Defined(fns[..0]);
    } else {
      var after := if fns[0].Some? then AfterHandler(event, fns[0].value) else event;
      assert fns[..1][1..] == [];
      if Prevented(after) {
        assert Calls(fns, event).0 == Defined(fns[..1]);
      } else {
        CallsArePrefix(fns[1..], after);
        var j :| 0 <= j <= |fns[1..]| && Calls(fns[1..], after).0 == Defined(fns[1..][..j]);
        assert fns[..j + 1][1..] == fns[1..][..j];
        assert Calls(fns, event).0 == Defined(fns[..j + 1]);
      }
    }
  }

  predicate NonePrevents(fns: seq<Option<Handler>>) {
    forall i :: 0 <= i < |fns| && fns[i].Some? ==> !fns[i].value.preventsDefault
  }

  /** Without any prevention every defined handler runs, in argument order,
      and undefined entries are skipped. */
  lemma {:induction false} AllHandlersRun(fns: seq<Option<Handler>>, event: Event)
    requires NonePrevents(fns) && !Prevented(event)
    ensures Calls(fns, event).0 == Defined(fns)
    decreases |fns|
  {
    if fns != [] {
      var after := if fns[0].Some? then AfterHandler(event, fns[0].value) else event;
      AllHandlersRun(fns[1..], after);
    }
  }

  /** The handler that prevents the default is the last one called. */
  lemma {:induction false} StopsAfterPrevention(fns: seq<Option<Handler>>, event: Event, i: nat)
    requires event.Some? && !event.value
    requires i < |fns| && fns[i].Some? && fns[i].value.preventsDefault
    requires NonePrevents(fns[..i])
    ensures Calls(fns, event).0 == Defined(fns[..i + 1])
    decreases i
  {
    if i == 0 {
      assert fns[..1][1..] == [];
    } else {
      var after := if fns[0].Some? then AfterHandler(event, fns[0].value) else event;
      assert fns[1..][..i - 1] == fns[..i][1..];
      StopsAfterPrevention(fns[1..], after, i - 1);
      assert fns[..i + 1][1..] == fns[1..][..i];
    }
  }

  /** On an event that is already prevented only the first entry can run:
      it runs when it is defined, and an undefined first entry stops the
      loop before any handler. */
  lemma AlreadyPrevented(fns: seq<Option<Handler>>, event: Event)
    requires Prevented(event) && |fns| > 0
    ensures Calls(fns, event).0 == (if fns[0].Some? then [fns[0].value.id] else [])
  {
  }

  /** once(fn): the wrapped function and the remembered result. */
  class Once {
    var fn: Option<nat>
    var result: Value
    /** How many times the wrapped function has run. */
    ghost var runs: nat

    ghost predicate Valid()
      reads this
    {
      runs <= 1 && (runs == 1 ==> fn.None?)
    }

    constructor (fn: Option<nat>)
      ensures Valid() && this.fn == fn && result == Undefined && runs == 0
    {
      this.fn := fn;
      result := Undefined;
      runs := 0;
    }

    /** A call of the wrapper: the first call with a function runs it and
        keeps its result; every call returns the kept result. */
    method Call(apply: (nat, seq<Value>) -> Value, args: seq<Value>) returns (r: Value)
      requires Valid()
      modifies this
      ensures Valid() && r == result
      ensures old(fn).Some? ==> result == apply(old(fn).value, args) && fn.None? && runs == old(runs) + 1
      ensures old(fn).None? ==> result == old(result) && fn.None? && runs == old(runs)
    {
      if fn.Some? {
        result := apply(fn.value, args);
        fn := None;
        runs := runs + 1;
      }
      r := result;
    }
  }

  /** However often the wrapper is called, the function runs at most once,
      and the second call returns the first call's result. */
  method CallTwice(o: Once, apply: (nat, seq<Value>) -> Value, a: seq<Value>, b: seq<Value>) returns (r1: Value, r2: Value)
    requires o.Valid()
    modifies o
    ensures r1 == r2 && o.runs <= 1
  {
    r1 := o.Call(apply, a);
    r2 := o.Call(apply, b);
  }
}
