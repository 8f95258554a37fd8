/**
 * React helpers (lib/util/react.ts): assigning one instance to several
 * refs, binding several prop groups into one, and the strictness of a
 * created context's hook.
 */
module ReactUtil {
  import opened Js
  import opened Objects
  import Functions

  // ---------------------------------------------------------------------
  // mergeRefs

  /** A ref object: React writes the instance into `current`. */
  class RefObject {
    var current: Value

    constructor ()
      ensures current == Null
    {
      current := Null;
    }
  }

  /** A ref as passed to mergeRefs: a callback, an object, or nothing. */
  datatype Ref = CallbackRef(id: nat) | ObjectRef(obj: RefObject) | NoRef

  function ObjectsOf(refs: seq<Ref>): set<RefObject> {
    set i | 0 <= i < |refs| && refs[i].ObjectRef? :: refs[i].obj
  }

  /** The callbacks among the refs, in order. */
  function Callbacks(refs: seq<Ref>): seq<nat>
    decreases |refs|
  {
    if refs == [] then []
    else Callbacks(refs[..|refs| - 1]) + (if refs[|refs| - 1].CallbackRef? then [refs[|refs| - 1].id] else [])
  }

  /** mergeRefs(...refs)(instance): the callbacks called, in order. */
  method MergeRefs(refs: seq<Ref>, instance: Value) returns (called: seq<nat>)
    modifies ObjectsOf(refs)
    ensures called == Callbacks(refs)
    ensures forall i :: 0 <= i < |refs| && refs[i].ObjectRef? ==> refs[i].obj.current == instance
  {
    called := [];
    for i := 0 to |refs|
      invariant called == Callbacks(refs[..i])
      invariant forall j :: 0 <= j < i && refs[j].ObjectRef? ==> refs[j].obj.current == instance
    {
      assert refs[..i + 1][..i] == refs[..i];
      match refs[i]
      case CallbackRef(id) => called := called + [id];
      case ObjectRef(obj) => obj.current := instance;
      case NoRef =>
    }
    assert refs[..|refs|] == refs;
  }

  /** A callback is called exactly when it is among the refs. */
  lemma {:induction false} CallbacksCalled(refs: seq<Ref>, id: nat)
    ensures id in Callbacks(refs) <==> CallbackRef(id) in refs
    decreases |refs|
  {
    if refs != [] {
      var n := |refs| - 1;
      CallbacksCalled(refs[..n], id);
      assert refs == refs[..n] + [refs[n]];
    }
  }

  // ---------------------------------------------------------------------
  // safeBind

  /** What safeBind stores under a key: a plain value, the combined handler
      for the functions bound under that name, or the merged ref. */
  datatype Bound = Plain(v: Value) | Combined(name: string) | MergedRef(refs: seq<Value>)

  datatype BindState = BindState(fns: Dict<Bound>, grouped: map<string, seq<nat>>, refs: seq<Value>)

  const Init := BindState([], map[], [])

  function GroupedOf(grouped: map<string, seq<nat>>, k: string): seq<nat> {
    if k in grouped then grouped[k] else []
  }

  /** One `[key, value]` entry of a bind group. */
  function Step(st: BindState, entry: (string, Value)): BindState {
    var (key, value) := entry;
    if key == "ref" then st.(refs := st.refs + [value])
    else if !value.Func? then st.(fns := Put(st.fns, key, Plain(value)))
    else BindState(Put(st.fns, key, Combined(key)),
                   st.grouped[key := GroupedOf(st.grouped, key) + [value.id]], st.refs)
  }

  /** The state after the entries, in order. */
  function Bind(entries: seq<(string, Value)>): BindState
    decreases |entries|
  {
    if entries == [] then Init else Step(Bind(entries[..|entries| - 1]), entries[|entries| - 1])
  }

  /** The entries of all the groups, group by group. */
  function Flatten(groups: seq<Dict<Value>>): seq<(string, Value)>
    decreases |groups|
  {
    if groups == [] then [] else Flatten(groups[..|groups| - 1]) + groups[|groups| - 1]
  }

  /** The final `fns.ref = mergeRefs(...refs)`. */
  function Finish(st: BindState): Dict<Bound> {
    if |st.refs| > 0 then Put(st.fns, "ref", MergedRef(st.refs)) else st.fns
  }

  /** safeBind(...bindGroups): the returned props and the grouped handlers
      their combined handlers call. */
  method SafeBind(bindGroups: seq<Dict<Value>>) returns (fns: Dict<Bound>, grouped: map<string, seq<nat>>)
    ensures fns == Finish(Bind(Flatten(bindGroups))) && grouped == Bind(Flatten(bindGroups)).grouped
  {
    fns := [];
    grouped := map[];
    var refs: seq<Value> := [];
    for g := 0 to |bindGroups|
      invariant BindState(fns, grouped, refs) == Bind(Flatten(bindGroups[..g]))
    {
      var bind := bindGroups[g];
      assert bindGroups[..g + 1][..g] == bindGroups[..g];
      assert bind[..0] == [] && Flatten(bindGroups[..g]) + [] == Flatten(bindGroups[..g]);
      for e := 0 to |bind|
        invariant BindState(fns, grouped, refs) == Bind(Flatten(bindGroups[..g]) + bind[..e])
      {
        var (key, value) := bind[e];
        ghost var es := Flatten(bindGroups[..g]) + bind[..e + 1];
        assert es[..|es| - 1] == Flatten(bindGroups[..g]) + bind[..e] && es[|es| - 1] == bind[e];
        if key == "ref" {
          refs := refs + [value];
        } else if !value.Func? {
          fns := Put(fns, key, Plain(value));
        } else {
          grouped := grouped[key := GroupedOf(grouped, key) + [value.id]];
          fns := Put(fns, key, Combined(key));
        }
      }
      assert bind[..|bind|] == bind;
    }
    assert bindGroups[..|bindGroups|] == bindGroups;
    if |refs| > 0 {
      fns := Put(fns, "ref", MergedRef(refs));
    }
  }

  /** The function values bound under k, in order of appearance. */
  function FunctionsUnder(entries: seq<(string, Value)>, k: string): seq<nat>
    decreases |entries|
  {
    if entries == [] then []
    else
      var e := entries[|entries| - 1];
      FunctionsUnder(entries[..|entries| - 1], k) + (if e.0 == k && e.1.Func? then [e.1.id] else [])
  }

  /** The ref values, in order of appearance. */
  function RefsOf(entries: seq<(string, Value)>): seq<Value>
    decreases |entries|
  {
    if entries == [] then []
    else
      var e := entries[|entries| - 1];
      RefsOf(entries[..|entries| - 1]) + (if e.0 == "ref" then [e.1] else [])
  }

  /** The last value bound under k. */
  function LastUnder(entries: seq<(string, Value)>, k: string): Option<Value>
    decreases |entries|
  {
    if entries == [] then None
    else if entries[|entries| - 1].0 == k then Some(entries[|entries| - 1].1)
    else LastUnder(entries[..|entries| - 1], k)
  }

  /** What a name holds given its last value. */
  function BoundFor(last: Option<Value>, k: string): Option<Bound> {
    match last
    case None => None
    case Some(v) => if v.Func? then Some(Combined(k)) else Some(Plain(v))
  }

  /** What the binding holds: every function under a name is collected in
      order (except under "ref"); all refs are collected in order; a name
      holds its last value when that is a plain value and the combined handler
      when it is a function; "ref" is never bound as a plain value. */
  lemma {:induction false} BindSpec(entries: seq<(string, Value)>, k: string)
    ensures k != "ref" ==> GroupedOf(Bind(entries).grouped, k) == FunctionsUnder(entries, k)
    ensures RefsOf(entries) == Bind(entries).refs
    ensures k != "ref" ==> Get(Bind(entries).fns, k) == BoundFor(LastUnder(entries, k), k)
    ensures "ref" !in KeySet(Bind(entries).fns)
    decreases |entries|
  {
    if entries != [] {
      var n := |entries| - 1;
      var st := Bind(entries[..n]);
      BindSpec(entries[..n], k);
      var (key, value) := entries[n];
      if key != "ref" {
        GetPut(st.fns, key, if value.Func? then Combined(key) else Plain(value), k);
        KeySetPut(st.fns, key, if value.Func? then Combined(key) else Plain(value));
      }
    }
  }

  /** A merged ref is bound exactly when at least one ref was given. */
  lemma RefBound(bindGroups: seq<Dict<Value>>)
    ensures Get(SafeBindResult(bindGroups), "ref") ==
      if |RefsOf(Flatten(bindGroups))| > 0 then Some(MergedRef(RefsOf(Flatten(bindGroups)))) else None
  {
    var st := Bind(Flatten(bindGroups));
    BindSpec(Flatten(bindGroups), "ref");
    GetNoneIff(st.fns, "ref");
    if |st.refs| > 0 {
      GetPut(st.fns, "ref", MergedRef(st.refs), "ref");
    }
  }

  function SafeBindResult(bindGroups: seq<Dict<Value>>): Dict<Bound> {
    Finish(Bind(Flatten(bindGroups)))
  }

  /** The combined handler of `name` fired with an event: the bound
      functions in order, or none when the event was already prevented. */
  function FireCombined(grouped: map<string, seq<nat>>, name: string, defaultPrevented: bool): (r: seq<nat>)
    ensures defaultPrevented ==> r == []
    ensures !defaultPrevented ==> r == GroupedOf(grouped, name)
  {
    if defaultPrevented then [] else GroupedOf(grouped, name)
  }

  // ---------------------------------------------------------------------
  // createContext

  datatype CreateContextOptions = CreateContextOptions(strict: Option<bool>, errorMessage: Option<string>)

  const DefaultErrorMessage: string := "useContext must be inside a Provider with a value"

  datatype Result<T> = Ok(value: T) | Throws(message: string)

  /** useContext() of a context made by createContext(options), given the
      value the nearest provider supplies (undefined without one). */
  function UseContext(options: CreateContextOptions, context: Value): (r: Result<Value>)
    ensures Truthy(context) ==> r == Ok(context)
    ensures !Truthy(context) && options.strict != Some(false) ==>
      r == Throws(if options.errorMessage.Some? then options.errorMessage.value else DefaultErrorMessage)
    ensures !Truthy(context) && options.strict == Some(false) ==> r == Ok(context)
  {
    var strict := if options.strict.Some? then options.strict.value else true;
    var errorMessage := if options.errorMessage.Some? then options.errorMessage.value else DefaultErrorMessage;
    if !Truthy(context) && strict then Throws(errorMessage) else Ok(context)
  }
}
