/**
 * The input group (lib/InputGroup.tsx): a provider that hands its size,
 * variant and border colours to the inputs inside it, and four mount flags
 * through which the left/right elements and addons announce themselves.
 */
module InputGroup {
  import opened Js
  import opened Objects

  /** useMounted(): one mount flag. */
  class Mounted {
    var isMounted: bool

    constructor ()
      ensures !isMounted
    {
      isMounted := false;
    }

    method Mount()
      modifies this
      ensures isMounted
    {
      isMounted := true;
    }

    method Unmount()
      modifies this
      ensures !isMounted
    {
      isMounted := false;
    }
  }

  /** The group context that InputBase reads (htmlProps excluded). */
  datatype GroupContext = GroupContext(
    inputSize: Value, variant: Value, focusBorderColor: Value, errorBorderColor: Value,
    leftElement: bool, rightElement: bool, leftAddon: bool, rightAddon: bool)

  const GroupKeys: set<string> := {"inputSize", "variant", "focusBorderColor", "errorBorderColor"}

  /** A destructuring default applies only to undefined. */
  function DefaultIfUndefined(v: Value, d: Value): (r: Value)
    ensures v == Undefined ==> r == d
    ensures v != Undefined ==> r == v
  {
    if v == Undefined then d else v
  }

  datatype Slot = LeftElement | RightElement | LeftAddon | RightAddon

  /** useInputGroupProvider(props): the group props and its four flags. */
  class InputGroupProvider {
    const props: Dict<Value>
    const leftElement: Mounted
    const rightElement: Mounted
    const leftAddon: Mounted
    const rightAddon: Mounted

    ghost predicate Valid()
      reads this
    {
      leftElement != rightElement && leftElement != leftAddon && leftElement != rightAddon &&
      rightElement != leftAddon && rightElement != rightAddon && leftAddon != rightAddon
    }

    constructor (props: Dict<Value>)
      ensures Valid() && this.props == props
      ensures Context() == GroupContext(
        DefaultIfUndefined(Lookup(props, "inputSize"), Str("md")),
        DefaultIfUndefined(Lookup(props, "variant"), Str("standard")),
        Lookup(props, "focusBorderColor"), Lookup(props, "errorBorderColor"),
        false, false, false, false)
    {
      this.props := props;
      leftElement := new Mounted();
      rightElement := new Mounted();
      leftAddon := new Mounted();
      rightAddon := new Mounted();
    }

    function SlotFlag(slot: Slot): Mounted
      reads this
    {
      match slot
      case LeftElement => leftElement
      case RightElement => rightElement
      case LeftAddon => leftAddon
      case RightAddon => rightAddon
    }

    /** The context handed to the inputs. */
    function Context(): GroupContext
      reads this, leftElement, rightElement, leftAddon, rightAddon
    {
      GroupContext(
        DefaultIfUndefined(Lookup(props, "inputSize"), Str("md")),
        DefaultIfUndefined(Lookup(props, "variant"), Str("standard")),
        Lookup(props, "focusBorderColor"), Lookup(props, "errorBorderColor"),
        leftElement.isMounted, rightElement.isMounted, leftAddon.isMounted, rightAddon.isMounted)
    }

    /** The props the group passes on to its div. */
    function HtmlProps(): (r: Dict<Value>)
      reads this
      ensures KeySet(r) == KeySet(props) - GroupKeys
      ensures forall k :: Get(r, k) == if k in GroupKeys then None else Get(props, k)
    {
      OmitGetAll(props, GroupKeys);
      Omit(props, GroupKeys)
    }

    /** A slot's mount or unmount changes that slot's flag and no other. */
    method SetMounted(slot: Slot, mounted: bool)
      requires Valid()
      modifies SlotFlag(slot)
      ensures Valid()
      ensures Context() == (match slot
        case LeftElement => old(Context()).(leftElement := mounted)
        case RightElement => old(Context()).(rightElement := mounted)
        case LeftAddon => old(Context()).(leftAddon := mounted)
        case RightAddon => old(Context()).(rightAddon := mounted))
    {
      var flag := SlotFlag(slot);
      if mounted {
        flag.Mount();
      } else {
        flag.Unmount();
      }
    }
  }

  /** Without a size or variant of its own the group uses md and standard;
      null is kept, since only undefined takes the default. */
  lemma GroupDefaults(props: Dict<Value>)
    ensures Get(props, "inputSize").None? ==> DefaultIfUndefined(Lookup(props, "inputSize"), Str("md")) == Str("md")
    ensures Get(props, "variant") == Some(Null) ==> DefaultIfUndefined(Lookup(props, "variant"), Str("standard")) == Null
  {
  }

  /** A child of the group: a React element with its props, or anything else
      (text, null, false). */
  datatype Child = Element(props: Dict<Value>) | NonElement(Value)

  /** The props cloneElement gives one element child. */
  function CloneProps(childProps: Dict<Value>, ctx: GroupContext): Dict<Value> {
    Spread(childProps, [
      ("inputSize", Or(Lookup(childProps, "inputSize"), ctx.inputSize)),
      ("variant", Or(Lookup(childProps, "variant"), ctx.variant)),
      ("focusBorderColor", Or(Lookup(childProps, "focusBorderColor"), ctx.focusBorderColor)),
      ("errorBorderColor", Or(Lookup(childProps, "errorBorderColor"), ctx.errorBorderColor))])
  }

  /** The element children count of a list of children. */
  function ElementCount(children: seq<Child>): nat {
    if children == [] then 0
    else (if children[0].Element? then 1 else 0) + ElementCount(children[1..])
  }

  /** React.Children.map(children, ...): non-elements map to null, which the
      result drops; elements are cloned. */
  function CloneChildren(children: seq<Child>, ctx: GroupContext): (r: seq<Dict<Value>>)
    ensures |r| == ElementCount(children)
  {
    if children == [] then []
    else if children[0].Element? then [CloneProps(children[0].props, ctx)] + CloneChildren(children[1..], ctx)
    else CloneChildren(children[1..], ctx)
  }

  /** The clones are the element children in order, non-elements dropped. */
  lemma {:induction false} CloneChildrenOrder(children: seq<Child>, ctx: GroupContext, extra: Child)
    ensures !extra.Element? ==> CloneChildren([extra] + children, ctx) == CloneChildren(children, ctx)
    ensures extra.Element? ==> CloneChildren([extra] + children, ctx) == [CloneProps(extra.props, ctx)] + CloneChildren(children, ctx)
  {
    assert ([extra] + children)[1..] == children;
  }

  /** The group's value for one of the four shared keys. */
  function GroupValue(ctx: GroupContext, k: string): Value {
    if k == "inputSize" then ctx.inputSize
    else if k == "variant" then ctx.variant
    else if k == "focusBorderColor" then ctx.focusBorderColor
    else ctx.errorBorderColor
  }

  /** A child's own truthy setting wins over the group's; a falsy one gives
      way to it. Every other prop of the child is kept. */
  lemma ChildPrecedence(childProps: Dict<Value>, ctx: GroupContext, k: string)
    ensures k in GroupKeys && Truthy(Lookup(childProps, k)) ==>
      Lookup(CloneProps(childProps, ctx), k) == Lookup(childProps, k)
    ensures k in GroupKeys && !Truthy(Lookup(childProps, k)) ==>
      Lookup(CloneProps(childProps, ctx), k) == GroupValue(ctx, k)
    ensures k !in GroupKeys ==> Get(CloneProps(childProps, ctx), k) == Get(childProps, k)
  {
    var o := [
      ("inputSize", Or(Lookup(childProps, "inputSize"), ctx.inputSize)),
      ("variant", Or(Lookup(childProps, "variant"), ctx.variant)),
      ("focusBorderColor", Or(Lookup(childProps, "focusBorderColor"), ctx.focusBorderColor)),
      ("errorBorderColor", Or(Lookup(childProps, "errorBorderColor"), ctx.errorBorderColor))];
    assert KeySet(o[3..]) == {"errorBorderColor"};
    assert KeySet(o[2..]) == {"focusBorderColor", "errorBorderColor"};
    assert KeySet(o[1..]) == {"variant", "focusBorderColor", "errorBorderColor"};
    assert KeySet(o) == GroupKeys;
    assert Distinct(o[3..]);
    assert Distinct(o);
    GetSpread(childProps, o, k);
    if k == "inputSize" { GetAt(o, 0, k); }
    if k == "variant" { GetAt(o, 1, k); }
    if k == "focusBorderColor" { GetAt(o, 2, k); }
    if k == "errorBorderColor" { GetAt(o, 3, k); }
  }
}
