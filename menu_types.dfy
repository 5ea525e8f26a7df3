/**
 * Shared vocabulary of the menu editor: the flat list of `<li class="menu-item">`
 * elements, seen as records, and the nested menu document that is loaded into
 * the editor and exported from it.
 */
module MenuTypes {

  datatype Option<+T> = None | Some(value: T)

  /** The opaque data object a menu item carries (text, url, type, new_tab, ...). */
  type Fields = map<string, string>

  /** Number the backward parent scan counts up to (`max_step`); it inspects at most `MaxStep - 1` predecessors. */
  const MaxStep: nat := 100

  /** Default of the `max_depth` option. */
  const DefaultMaxDepth: int := 2

  /** Type given to a node that carries no (or an empty) `type`. */
  const DefaultType: string := "link"

  /**
   * One `<li class="menu-item">`. `depth` is the `--wpmenu_depth` CSS variable,
   * 0 when it is absent. The flags are the state of the item's action buttons:
   * "Up one" / "Down one" disabled, "Under ..." (child-in) and "Out from ..."
   * (child-out) shown; the two refs are the positions whose titles those labels
   * name (None while a label still holds its template placeholder).
   */
  datatype Item = Item(
    data: Fields,
    depth: int,
    upDisabled: bool,
    downDisabled: bool,
    childInShown: bool,
    childOutShown: bool,
    childInRef: Option<nat>,
    childOutRef: Option<nat>)

  /**
   * A node of the nested menu document. `Leaf` has no `submenu` key; `Branch`
   * has one (possibly an empty array on input).
   */
  datatype MenuNode =
    | Leaf(fields: Fields)
    | Branch(fields: Fields, submenu: seq<MenuNode>)

  /** The children a node contributes: an absent or empty `submenu` contributes none. */
  function Children(t: MenuNode): (cs: seq<MenuNode>)
    ensures t.Leaf? ==> cs == []
    ensures t.Branch? ==> cs == t.submenu
  {
    match t
    case Leaf(_) => []
    case Branch(_, sub) => sub
  }

  /** The depth column of the item list. */
  function Depths(s: seq<Item>): (ds: seq<int>)
    ensures |ds| == |s|
    ensures forall k :: 0 <= k < |s| ==> ds[k] == s[k].depth
  {
    seq(|s|, k requires 0 <= k < |s| => s[k].depth)
  }
}
