/** The host toolkit's menu tree, as the menu server sees it.  The server never
    creates or destroys menu items: it only reads their current state.  Items are
    references (`Handle`); `Host` gives the current state of every reference. */
module HostMenu {
  import opened Wrappers

  type Handle = nat

  /** The run-time class of a ToolStripItem, as far as the server tests it. */
  datatype Kind =
    | Separator       // ToolStripSeparator
    | MenuItem        // ToolStripMenuItem (a drop-down item)
    | OtherDropDown   // any other ToolStripDropDownItem
    | OtherItem       // any other ToolStripItem (button, label, ...)

  datatype CheckState = Unchecked | Checked | Indeterminate

  /** The state of one ToolStripItem.  `image` holds the PNG encoding of the
      item's image when it has one; the shortcut is its modifier flags and the
      name of its key code (None for Keys.None). */
  datatype Node = Node(
    kind: Kind,
    text: Option<string>,
    enabled: bool,
    available: bool,
    image: Option<seq<bv8>>,
    checkOnClick: bool,
    checkState: CheckState,
    alt: bool,
    control: bool,
    shift: bool,
    keyCode: Option<string>,
    accessibleDescription: Option<string>,
    dropDownItems: seq<Handle>)

  /** The heap of host objects: the state of every menu item, and the item
      collection of every menu strip (MenuStrip or ContextMenuStrip). */
  datatype Host = Host(node: Handle -> Node, stripItems: Handle -> seq<Handle>)

  predicate IsDropDown(n: Node) {
    n.kind == MenuItem || n.kind == OtherDropDown
  }

  /** `DropDownItems` of the item, in display order; empty for an item that is
      not a ToolStripDropDownItem. */
  function DropDownItems(host: Host, h: Handle): (cs: seq<Handle>)
    ensures !IsDropDown(host.node(h)) ==> cs == []
  {
    if IsDropDown(host.node(h)) then host.node(h).dropDownItems else []
  }

  /** A rank that strictly decreases from an item to each of its drop-down items. */
  ghost predicate Ranked(host: Host, rank: Handle -> nat) {
    forall h, c :: c in DropDownItems(host, h) ==> rank(c) < rank(h)
  }

  /** The item tree is finite and acyclic, as every WinForms menu is. */
  ghost predicate WellFormed(host: Host) {
    exists rank :: Ranked(host, rank)
  }

  /** The height of an item under one rank function of the tree. */
  ghost function Height(host: Host, h: Handle): nat
    requires WellFormed(host)
  {
    var rank :| Ranked(host, rank); rank(h)
  }

  /** A drop-down item is lower than the item it belongs to. */
  lemma HeightDecreases(host: Host, h: Handle, c: Handle)
    requires WellFormed(host)
    requires c in DropDownItems(host, h)
    ensures Height(host, c) < Height(host, h)
  {
  }

  /** An upper bound, strictly above the height of each item of `cs`. */
  ghost function Bound(host: Host, cs: seq<Handle>): (b: nat)
    requires WellFormed(host)
  {
    if cs == [] then 0
    else
      var rest := Bound(host, cs[1..]);
      if Height(host, cs[0]) + 1 > rest then Height(host, cs[0]) + 1 else rest
  }

  /** The bound lies above every item of the list. */
  lemma {:induction false} BoundAbove(host: Host, cs: seq<Handle>)
    requires WellFormed(host)
    ensures forall c :: c in cs ==> Height(host, c) < Bound(host, cs)
  {
    if cs != [] {
      BoundAbove(host, cs[1..]);
      forall c | c in cs ensures Height(host, c) < Bound(host, cs) {
        if c != cs[0] {
          assert c in cs[1..];
        }
      }
    }
  }

  /** The bound is the least such: any `k` above every item is at least the
      bound. */
  lemma {:induction false} BoundBelow(host: Host, cs: seq<Handle>, k: nat)
    requires WellFormed(host)
    requires forall c :: c in cs ==> Height(host, c) < k
    ensures Bound(host, cs) <= k
  {
    if cs != [] {
      BoundBelow(host, cs[1..], k);
    }
  }

  /** The drop-down items of an item are bounded by the item's height. */
  lemma ChildrenBound(host: Host, h: Handle)
    requires WellFormed(host)
    ensures Bound(host, DropDownItems(host, h)) <= Height(host, h)
  {
    forall c | c in DropDownItems(host, h) ensures Height(host, c) < Height(host, h) {
      HeightDecreases(host, h, c);
    }
    BoundBelow(host, DropDownItems(host, h), Height(host, h));
  }

  /** Depth-first pre-order of the items `hs` and, below each drop-down item,
      of its drop-down items: the order in which the menu server walks them. */
  function PreOrder(host: Host, hs: seq<Handle>): seq<Handle>
    requires WellFormed(host)
    decreases Bound(host, hs), |hs|
  {
    if hs == [] then []
    else
      ChildrenBound(host, hs[0]);
      [hs[0]] + PreOrder(host, DropDownItems(host, hs[0])) + PreOrder(host, hs[1..])
  }

  /** Pre-order distributes over concatenation. */
  lemma {:induction false} PreOrderAppend(host: Host, a: seq<Handle>, b: seq<Handle>)
    requires WellFormed(host)
    ensures PreOrder(host, a + b) == PreOrder(host, a) + PreOrder(host, b)
    decreases |a|
  {
    if a == [] {
      assert a + b == b;
    } else {
      assert (a + b)[0] == a[0];
      assert (a + b)[1..] == a[1..] + b;
      PreOrderAppend(host, a[1..], b);
    }
  }

  /** Every item and every item below it appears in the pre-order. */
  lemma {:induction false} PreOrderContains(host: Host, hs: seq<Handle>, h: Handle)
    requires WellFormed(host)
    requires h in hs
    ensures h in PreOrder(host, hs)
    decreases |hs|
  {
    if h != hs[0] {
      PreOrderContains(host, hs[1..], h);
    }
  }

  /** Pre-order of a prefix extended by one item: that item, then its
      drop-down items in pre-order. */
  lemma PreOrderStep(host: Host, hs: seq<Handle>, i: int)
    requires WellFormed(host)
    requires 0 <= i < |hs|
    ensures PreOrder(host, hs[..i + 1]) == PreOrder(host, hs[..i]) + ([hs[i]] + PreOrder(host, DropDownItems(host, hs[i])))
  {
    assert hs[..i + 1] == hs[..i] + [hs[i]];
    PreOrderAppend(host, hs[..i], [hs[i]]);
    assert [hs[i]][1..] == [];
  }
}
