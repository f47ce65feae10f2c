/**
 The pointer structure of src/lib/frl_radix_tree.c, in its mutex version: entries
 with 256 child pointers, a full key, and links to parent and tree, rewritten in
 place.  Each method computes the corresponding function of module Trie.
 */
module RadixTree {
  import opened Basics
  import opened Trie

  const FANOUT := 256

  /** frl_radix_tree_entry_t */
  class Entry {
    var depth: nat
    var nelts: nat
    var pointer: Pointer
    var key: Key
    var parent: Entry?
    const children: array<Entry?>

    /** An entry as the slab pool hands it out: every field has some value. */
    constructor (depth: nat, nelts: nat, pointer: Pointer, key: Key, children: array<Entry?>)
      ensures this.depth == depth && this.nelts == nelts && this.pointer == pointer && this.key == key
      ensures this.children == children && this.parent == null
    {
      this.depth, this.nelts, this.pointer, this.key, this.parent := depth, nelts, pointer, key, null;
      this.children := children;
    }
  }

  /** keycmp (lines 9-15). */
  method KeyCmp(key1: Key, key2: Key, k: nat, size: nat) returns (same: bool)
    requires k <= size && size <= |key1| && size <= |key2|
    ensures same <==> key1[k..size] == key2[k..size]
  {
    var i := k;
    while i < size
      invariant k <= i <= size
      invariant key1[k..i] == key2[k..i]
    {
      if key1[i] != key2[i] {
        assert key1[k..size][i - k] != key2[k..size][i - k];
        return false;
      }
      assert key1[k..i + 1] == key1[k..i] + [key1[i]] && key2[k..i + 1] == key2[k..i] + [key2[i]];
      i := i + 1;
    }
    return true;
  }

  /** empty (lines 17-22). */
  method Empty(children: array<Entry?>)
    requires children.Length == FANOUT
    modifies children
    ensures forall c | 0 <= c < FANOUT :: children[c] == null
  {
    for i := 0 to FANOUT
      invariant forall c | 0 <= c < i :: children[c] == null
    {
      children[i] := null;
    }
  }

  ghost function ChildrenAt(paths: set<Path>, p: Path): set<Byte>
  {
    set c: Byte | p + [c] in paths
  }

  /** The contents of an entry at one moment. */
  datatype Cell = Cell(depth: nat, nelts: nat, pointer: Pointer, key: Key, parent: Entry?, children: seq<Entry?>)

  ghost function CellOf(e: Entry): Cell
    reads e, e.children
  {
    Cell(e.depth, e.nelts, e.pointer, e.key, e.parent, e.children[..])
  }

  /** Lines 82-88: a slot is made a leaf at level `i` below `parent`. */
  method FillLeaf(slot: Entry, key: Key, pointer: Pointer, parent: Entry, i: nat)
    requires slot.children.Length == FANOUT
    modifies slot, slot.children
    ensures CellOf(slot) == Cell(i, 0, pointer, key, parent, CellOf(slot).children)
    ensures forall c: Byte :: CellOf(slot).children[c] == null
  {
    Empty(slot.children);
    slot.nelts := 0;
    slot.key := key;
    slot.pointer := pointer;
    slot.parent := parent;
    slot.depth := i;
  }

  // ------------------------------------------- the tree at one moment, as values

  type Entries = map<Path, Entry>  // every entry of the tree, at its path
  type Cells = map<Path, Cell>     // and what it contains

  /** What the entry at path `p` must contain. */
  ghost predicate CellOK(nodes: Entries, size: nat, p: Path, cell: Cell)
  {
    && |cell.children| == FANOUT && |cell.key| == size
    && (forall c: Byte :: cell.children[c] == if p + [c] in nodes then nodes[p + [c]] else null)
    && cell.nelts == |ChildrenAt(nodes.Keys, p)|
    && (p != [] ==> cell.depth == |p| - 1 && Up(p) in nodes && cell.parent == nodes[Up(p)])
  }

  ghost predicate Apart(nodes: Entries, p: Path, q: Path)
    requires p in nodes && q in nodes
  {
    p != q ==> nodes[p] != nodes[q] && nodes[p].children != nodes[q].children
  }

  function Items(cells: Cells): Nodes
  {
    map p | p in cells :: Item(cells[p].key, cells[p].pointer)
  }

  ghost predicate TreeOK(nodes: Entries, cells: Cells, size: nat)
  {
    && cells.Keys == nodes.Keys
    && (forall p {:trigger CellOK(nodes, size, p, cells[p])} | p in cells :: CellOK(nodes, size, p, cells[p]))
    && (forall p, q {:trigger Apart(nodes, p, q)} | p in nodes && q in nodes :: Apart(nodes, p, q))
    && Shape(Items(cells), size)
  }

  lemma ChildPath(p: Path, c: Byte)
    ensures p + [c] != [] && Up(p + [c]) == p && (p + [c])[|p|] == c
  {
  }

  lemma NotChildOf(q: Path, leaf: Path)
    requires leaf != [] && Up(leaf) != q
    ensures forall c: Byte :: q + [c] != leaf
  {
    forall c: Byte ensures q + [c] != leaf { ChildPath(q, c); }
  }

  /** A leaf that comes or goes does not concern the entries other than its parent. */
  lemma OtherKept(nodes: Entries, nodes': Entries, size: nat, leaf: Path, q: Path, cell: Cell)
    requires q != leaf && CellOK(nodes, size, q, cell) && (forall c: Byte :: q + [c] != leaf)
             && (q == [] || Up(q) != leaf)
    requires forall p | p != leaf :: (p in nodes <==> p in nodes') && (p in nodes ==> nodes'[p] == nodes[p])
    ensures CellOK(nodes', size, q, cell)
  {
    assert ChildrenAt(nodes'.Keys, q) == ChildrenAt(nodes.Keys, q);
  }

  function Gains(cell: Cell, c: Byte, slot: Entry): Cell
    requires |cell.children| == FANOUT
  {
    cell.(nelts := cell.nelts + 1, children := cell.children[c := slot])
  }

  /** The parent of a new leaf has one child more. */
  lemma ParentGains(nodes: Entries, size: nat, at: Path, c: Byte, slot: Entry, cell: Cell)
    requires at + [c] !in nodes && CellOK(nodes, size, at, cell)
    ensures CellOK(nodes[at + [c] := slot], size, at, Gains(cell, c, slot))
  {
    var nodes' := nodes[at + [c] := slot];
    forall b: Byte ensures at + [b] == at + [c] <==> b == c { ChildPath(at, b); ChildPath(at, c); }
    assert ChildrenAt(nodes'.Keys, at) == ChildrenAt(nodes.Keys, at) + {c};
    assert at != [] ==> |Up(at)| < |at + [c]|;
  }

  lemma LeafOK(nodes: Entries, size: nat, at: Path, c: Byte, slot: Entry, cell: Cell)
    requires at in nodes && |cell.children| == FANOUT && |cell.key| == size
    requires forall b: Byte :: (at + [c]) + [b] !in nodes && cell.children[b] == null
    requires cell.depth == |at| && cell.nelts == 0 && cell.parent == nodes[at]
    ensures CellOK(nodes[at + [c] := slot], size, at + [c], cell)
  {
    var nodes' := nodes[at + [c] := slot];
    ChildPath(at, c);
    forall b: Byte ensures (at + [c]) + [b] !in nodes' { assert |(at + [c]) + [b]| != |at + [c]|; }
    assert ChildrenAt(nodes'.Keys, at + [c]) == {};
  }

  /** Below a path that is not in the tree there is nothing. */
  lemma NoOrphans(t: Nodes, size: nat, p: Path)
    requires Shape(t, size) && p !in t
    ensures forall c: Byte :: p + [c] !in t
  {
    forall c: Byte ensures p + [c] !in t {
      assert (p + [c])[..|p|] == p;
      if p + [c] in t { PrefixIn(t, size, p + [c], |p|); }
    }
  }

  function Attached(cells: Cells, at: Path, c: Byte, slot: Entry, leafCell: Cell): Cells
    requires at in cells && |cells[at].children| == FANOUT
  {
    cells[at := Gains(cells[at], c, slot)][at + [c] := leafCell]
  }

  lemma AttachedItems(cells: Cells, at: Path, c: Byte, slot: Entry, leafCell: Cell)
    requires at in cells && |cells[at].children| == FANOUT && at + [c] !in cells
    ensures Items(Attached(cells, at, c, slot, leafCell))
            == Items(cells)[at + [c] := Item(leafCell.key, leafCell.pointer)]
  {
    assert |at + [c]| != |at|;
  }

  lemma AttachedCells(nodes: Entries, cells: Cells, size: nat, at: Path, c: Byte, slot: Entry, leafCell: Cell)
    requires TreeOK(nodes, cells, size) && at in nodes && at + [c] !in nodes
    requires leafCell.depth == |at| && leafCell.nelts == 0 && leafCell.parent == nodes[at] && |leafCell.key| == size
    requires |leafCell.children| == FANOUT && forall b: Byte :: leafCell.children[b] == null
    ensures |cells[at].children| == FANOUT
    ensures var cells' := Attached(cells, at, c, slot, leafCell);
            forall q | q in cells' :: CellOK(nodes[at + [c] := slot], size, q, cells'[q])
  {
    var leaf := at + [c];
    assert CellOK(nodes, size, at, cells[at]);
    ChildPath(at, c);
    NoOrphans(Items(cells), size, leaf);
    ParentGains(nodes, size, at, c, slot, cells[at]);
    LeafOK(nodes, size, at, c, slot, leafCell);
    forall q | q in cells && q != at ensures CellOK(nodes[leaf := slot], size, q, cells[q]) {
      assert CellOK(nodes, size, q, cells[q]);
      NotChildOf(q, leaf);
      OtherKept(nodes, nodes[leaf := slot], size, leaf, q, cells[q]);
    }
  }

  /** Attaching a leaf towards `key` keeps the tree well formed. */
  lemma AttachOK(nodes: Entries, cells: Cells, size: nat, key: Key, i: nat, slot: Entry, leafCell: Cell)
    requires TreeOK(nodes, cells, size) && i < size == |key| && key[..i] in nodes && key[..i] + [key[i]] !in nodes
    requires leafCell == Cell(i, 0, leafCell.pointer, key, nodes[key[..i]], leafCell.children)
    requires |leafCell.children| == FANOUT && forall c: Byte :: leafCell.children[c] == null
    requires forall p | p in nodes :: nodes[p] != slot && nodes[p].children != slot.children
    ensures |cells[key[..i]].children| == FANOUT
    ensures var cells' := Attached(cells, key[..i], key[i], slot, leafCell);
            && TreeOK(nodes[key[..i] + [key[i]] := slot], cells', size)
            && Items(cells') == Items(cells)[key[..i] + [key[i]] := Item(key, leafCell.pointer)]
  {
    var at, leaf := key[..i], key[..i] + [key[i]];
    AttachedCells(nodes, cells, size, at, key[i], slot, leafCell);
    AttachedItems(cells, at, key[i], slot, leafCell);
    assert leaf == key[..i + 1];
    AttachKeepsShape(Items(cells), size, key, leafCell.pointer, i);
    var nodes' := nodes[leaf := slot];
    forall p, q | p in nodes' && q in nodes' ensures Apart(nodes', p, q) {
      if p != leaf && q != leaf { assert Apart(nodes, p, q); }
    }
  }

  function Loses(cell: Cell, c: Byte): Cell
    requires |cell.children| == FANOUT && cell.nelts > 0
  {
    cell.(nelts := cell.nelts - 1, children := cell.children[c := null])
  }

  /** The parent of a leaf that goes has one child less. */
  lemma ParentLoses(nodes: Entries, size: nat, at: Path, c: Byte, cell: Cell)
    requires at + [c] in nodes && CellOK(nodes, size, at, cell)
    ensures cell.nelts > 0 && CellOK(nodes - {at + [c]}, size, at, Loses(cell, c))
  {
    var nodes' := nodes - {at + [c]};
    forall b: Byte ensures at + [b] == at + [c] <==> b == c { ChildPath(at, b); ChildPath(at, c); }
    assert c in ChildrenAt(nodes.Keys, at);
    assert ChildrenAt(nodes'.Keys, at) == ChildrenAt(nodes.Keys, at) - {c};
    assert at != [] ==> |Up(at)| < |at + [c]|;
  }

  /** The contents after the leaf `q` is unhung and its key and pointer moved to `p`. */
  function Refilled(cells: Cells, p: Path, q: Path): Cells
    requires p in cells && q in cells && q != [] && Up(q) in cells && Up(q) != q
    requires |cells[Up(q)].children| == FANOUT && cells[Up(q)].nelts > 0
  {
    var rest := (cells - {q})[Up(q) := Loses(cells[Up(q)], q[|q| - 1])];
    if p == q then rest else rest[p := rest[p].(key := cells[q].key, pointer := cells[q].pointer)]
  }

  /** Unhanging a leaf keeps all entries but the leaf as they must be. */
  lemma UnhangOK(nodes: Entries, cells: Cells, size: nat, q: Path)
    requires TreeOK(nodes, cells, size) && q in nodes && q != [] && IsLeaf(Items(cells), q)
    ensures Up(q) in cells && Up(q) != q && |cells[Up(q)].children| == FANOUT && cells[Up(q)].nelts > 0
    ensures var rest := (cells - {q})[Up(q) := Loses(cells[Up(q)], q[|q| - 1])];
            forall r | r in rest :: CellOK(nodes - {q}, size, r, rest[r])
  {
    var at, c := Up(q), q[|q| - 1];
    assert CellOK(nodes, size, q, cells[q]);
    assert CellOK(nodes, size, at, cells[at]);
    assert at + [c] == q;
    ParentLoses(nodes, size, at, c, cells[at]);
    var rest := (cells - {q})[at := Loses(cells[at], c)];
    forall r | r in rest ensures CellOK(nodes - {q}, size, r, rest[r]) {
      if r != at {
        assert CellOK(nodes, size, r, cells[r]);
        NotChildOf(r, q);
        assert r != [] ==> Up(r) + [r[|r| - 1]] == r;
        OtherKept(nodes, nodes - {q}, size, q, r, cells[r]);
      }
    }
  }

  lemma RefilledItems(cells: Cells, p: Path, q: Path)
    requires p in cells && q in cells && q != [] && Up(q) in cells && Up(q) != q
    requires |cells[Up(q)].children| == FANOUT && cells[Up(q)].nelts > 0
    ensures Refilled(cells, p, q).Keys == cells.Keys - {q}
    ensures Items(Refilled(cells, p, q)) == Removed(Items(cells), p, q)
  {
  }

  lemma RefilledCells(nodes: Entries, cells: Cells, size: nat, p: Path, q: Path)
    requires TreeOK(nodes, cells, size) && p in nodes && q in nodes && q != [] && IsLeaf(Items(cells), q)
    ensures q in cells && Up(q) in cells && Up(q) != q && |cells[Up(q)].children| == FANOUT && cells[Up(q)].nelts > 0
    ensures forall r | r in Refilled(cells, p, q) :: CellOK(nodes - {q}, size, r, Refilled(cells, p, q)[r])
  {
    UnhangOK(nodes, cells, size, q);
    assert CellOK(nodes, size, q, cells[q]);
  }

  /** Removing an entry and filling the hole from a leaf below keeps the tree well formed. */
  lemma DetachOK(nodes: Entries, cells: Cells, size: nat, p: Path, q: Path)
    requires TreeOK(nodes, cells, size) && p in nodes && p != [] && Descends(Items(cells), p, q)
    ensures q in cells && q != [] && Up(q) in cells && Up(q) != q && |cells[Up(q)].children| == FANOUT
            && cells[Up(q)].nelts > 0
    ensures TreeOK(nodes - {q}, Refilled(cells, p, q), size)
    ensures Items(Refilled(cells, p, q)) == Removed(Items(cells), p, q)
  {
    ReachesBelow(Items(cells), p, q);
    RefilledCells(nodes, cells, size, p, q);
    RefilledItems(cells, p, q);
    RemoveKeepsShape(Items(cells), size, p, q);
    forall r, u | r in nodes - {q} && u in nodes - {q} ensures Apart(nodes - {q}, r, u) { assert Apart(nodes, r, u); }
  }

  lemma RootOK(nodes: Entries, size: nat, cells: Cells)
    requires nodes.Keys == cells.Keys == {[]} && CellOK(nodes, size, [], cells[[]])
    ensures TreeOK(nodes, cells, size) && Items(cells) == map[[] := Item(cells[[]].key, cells[[]].pointer)]
  {
    assert NodeOK(Items(cells), size, []);
  }

  // ------------------------------------------------------ the pointer structure

  /** frl_radix_tree_t */
  class RadixTree {
    const keySize: nat
    const root: Entry
    ghost var nodes: Entries

    ghost var Repr: set<object>

    ghost predicate Owned()
      reads this
    {
      forall p | p in nodes :: nodes[p] in Repr && nodes[p].children in Repr
    }

    ghost function Contents(): Cells
      requires Owned()
      reads this, Repr
    {
      map p | p in nodes :: CellOf(nodes[p])
    }

    /** The tree as a value. */
    ghost function View(): Nodes
      requires Owned()
      reads this, Repr
    {
      Items(Contents())
    }

    ghost predicate Valid()
      reads this, Repr
    {
      && Owned() && [] in nodes && root == nodes[[]]
      && TreeOK(nodes, Contents(), keySize)
    }

    /** frl_radix_tree_create (lines 185-213); `key` is whatever the slab holds. */
    constructor (keySize: nat, key: Key)
      requires |key| == keySize
      ensures Valid() && fresh(Repr)
      ensures this.keySize == keySize && View() == map[[] := Item(key, 0)]
    {
      this.keySize := keySize;
      var children := new Entry?[FANOUT];
      Empty(children);
      var e := new Entry(0, 0, 0, key, children);
      root := e;
      nodes := map[[] := e];
      Repr := {e, children};
      new;
      assert ChildrenAt(nodes.Keys, []) == {};
      assert Contents() == map[[] := Cell(0, 0, 0, key, null, children[..])];
      RootOK(nodes, keySize, Contents());
    }

    lemma ContentsIs(c: Cells)
      requires Owned() && (forall p :: p in c <==> p in nodes) && forall p | p in nodes :: CellOf(nodes[p]) == c[p]
      ensures Contents() == c
    {
    }

    /** What a descent may use about the entry at `p`. */
    lemma At(p: Path)
      requires Valid() && p in nodes
      ensures nodes[p].children.Length == FANOUT && |nodes[p].key| == keySize
      ensures forall c: Byte :: nodes[p].children[c] == if p + [c] in nodes then nodes[p + [c]] else null
      ensures p in View() && View()[p] == Item(nodes[p].key, nodes[p].pointer)
    {
      assert CellOK(nodes, keySize, p, Contents()[p]);
    }

    /** frl_radix_tree_get (lines 36-67). */
    method Get(key: Key) returns (e: Entry?)
      requires Valid() && |key| == keySize
      ensures match Search(View(), keySize, key, 0)
              case None => e == null
              case Some(p) => p in nodes && e == nodes[p]
    {
      ghost var t := View();
      var elts := root;
      var i := 0;
      while i < keySize
        invariant 0 <= i <= keySize && key[..i] in nodes && elts == nodes[key[..i]]
        invariant Valid() && View() == t
        invariant Search(t, keySize, key, 0) == Search(t, keySize, key, i)
      {
        At(key[..i]);
        assert key[..i] + [key[i]] == key[..i + 1];
        var child := elts.children[key[i]];
        if child == null { return null; }
        elts := child;
        At(key[..i + 1]);
        assert elts.key[i + 1..keySize] == elts.key[i + 1..];
        assert key[i + 1..keySize] == key[i + 1..];
        var same := KeyCmp(elts.key, key, i + 1, keySize);
        if same { return elts; }
        i := i + 1;
      }
      return null;
    }

    /** frl_radix_tree_add (lines 69-107); `slot` is what the slab pool would hand out. */
    method Add(key: Key, pointer: Pointer, slot: Entry) returns (e: Entry?)
      requires Valid() && |key| == keySize
      requires slot !in Repr && slot.children !in Repr && slot.children.Length == FANOUT
      modifies this, Repr, slot, slot.children
      ensures Valid() && View() == Added(old(View()), keySize, key, pointer)
      ensures match Slot(old(View()), keySize, key, 0)
              case None => e == null && nodes == old(nodes) && Repr == old(Repr)
              case Some(p) => e == slot && nodes == old(nodes)[p := slot] && Repr == old(Repr) + {slot, slot.children}
    {
      ghost var t := View();
      var elts := root;
      var i := 0;
      assert key[..0] == [];
      while i < keySize
        invariant 0 <= i <= keySize && key[..i] in nodes && elts == nodes[key[..i]]
        invariant Valid() && View() == t && nodes == old(nodes) && Repr == old(Repr)
        invariant Slot(t, keySize, key, 0) == Slot(t, keySize, key, i)
      {
        At(key[..i]);
        assert key[..i] + [key[i]] == key[..i + 1];
        var child := elts.children[key[i]];
        if child == null {
          AttachLeaf(key, i, pointer, elts, slot);
          return slot;
        }
        assert elts.key[i + 1..keySize] == elts.key[i + 1..];
        assert key[i + 1..keySize] == key[i + 1..];
        var same := KeyCmp(elts.key, key, i + 1, keySize);
        if same { return null; }
        elts := child;
        i := i + 1;
      }
      return null;
    }

    /** Lines 89-90: `slot` is hung into `elts`, the entry at `at`. */
    method LinkChild(ghost at: Path, c: Byte, elts: Entry, slot: Entry)
      requires Owned() && at in nodes && elts == nodes[at] && elts.children.Length == FANOUT && at + [c] !in nodes
      requires slot !in Repr && slot.children !in Repr
      requires AllApart(at)
      modifies this`nodes, this`Repr, elts`nelts, elts.children
      ensures nodes == old(nodes)[at + [c] := slot] && Repr == old(Repr) + {slot, slot.children} && Owned()
      ensures Contents() == old(Contents())[at := Gains(old(CellOf(elts)), c, slot)][at + [c] := old(CellOf(slot))]
    {
      ghost var before := nodes;
      ghost var after := Contents()[at := Gains(CellOf(elts), c, slot)][at + [c] := CellOf(slot)];
      forall q | q in nodes && q != at ensures nodes[q] != elts && nodes[q].children != elts.children {
        assert Apart(nodes, at, q);
      }
      elts.children[c] := slot;
      elts.nelts := elts.nelts + 1;
      nodes := nodes[at + [c] := slot];
      Repr := Repr + {slot, slot.children};
      ContentsIs(after);
    }

    /** Lines 81-90: the slot becomes the child of `elts`, at level i, towards `key`. */
    method AttachLeaf(key: Key, i: nat, pointer: Pointer, elts: Entry, slot: Entry)
      requires Valid() && i < keySize == |key|
      requires key[..i] in nodes && elts == nodes[key[..i]] && key[..i + 1] !in nodes
      requires slot !in Repr && slot.children !in Repr && slot.children.Length == FANOUT
      modifies this`nodes, this`Repr, elts`nelts, elts.children, slot, slot.children
      ensures Valid() && nodes == old(nodes)[key[..i + 1] := slot] && Repr == old(Repr) + {slot, slot.children}
      ensures View() == old(View())[key[..i + 1] := Item(key, pointer)]
    {
      ghost var before, cells := nodes, Contents();
      assert key[..i] + [key[i]] == key[..i + 1];
      At(key[..i]);
      FillLeaf(slot, key, pointer, elts, i);
      ghost var leafCell := CellOf(slot);
      assert Contents() == cells;
      LinkChild(key[..i], key[i], elts, slot);
      AttachOK(before, cells, keySize, key, i, slot, leafCell);
    }

    lemma LeafHasNone(p: Path)
      requires Valid() && p in nodes
      ensures nodes[p].nelts == 0 <==> IsLeaf(View(), p)
    {
      assert CellOK(nodes, keySize, p, Contents()[p]);
      if nodes[p].nelts == 0 {
        forall c: Byte ensures p + [c] !in nodes { assert c !in ChildrenAt(nodes.Keys, p); }
      } else {
        var c :| c in ChildrenAt(nodes.Keys, p);
      }
    }

    /** Lines 119-134: one choice of the descent, at an entry with children. */
    method PickChild(leaf: Entry, ghost r: Path) returns (newleaf: Entry, ghost c: Byte)
      requires Valid() && r in nodes && leaf == nodes[r] && leaf.nelts > 0
      ensures Picks(View(), r, c) && r + [c] in nodes && newleaf == nodes[r + [c]]
    {
      ghost var t := View();
      var best: Entry? := null;
      c := 0;
      At(r);
      var i := 0;
      while i < FANOUT
        invariant 0 <= i <= FANOUT
        invariant forall b: Byte | b < i && r + [b] in nodes :: best != null && !IsLeaf(t, r + [b])
        invariant best != null ==> r + [c] in nodes && best == nodes[r + [c]] && c < i
        invariant best != null ==> forall b: Byte | r + [b] in nodes :: b >= c
      {
        var child := leaf.children[i];
        if child != null {
          LeafHasNone(r + [i]);
          if child.nelts == 0 {
            c := i;
            return child, c;
          }
          if best == null {
            best := child;
            c := i;
          }
        }
        i := i + 1;
      }
      LeafHasNone(r);
      return best, c;
    }

    /** Lines 115-135: from `elts` down to the leaf that will fill its place. */
    method FindLeaf(elts: Entry, ghost p: Path) returns (leaf: Entry, ghost q: Path)
      requires Valid() && p in nodes && elts == nodes[p]
      ensures Descends(View(), p, q) && q in nodes && leaf == nodes[q]
    {
      leaf, q := elts, p;
      while leaf.nelts > 0
        invariant Reaches(View(), p, q) && q in nodes && leaf == nodes[q]
        decreases keySize - |q|
      {
        ghost var c: Byte;
        assert NodeOK(View(), keySize, q);
        leaf, c := PickChild(leaf, q);
        assert Up(q + [c]) == q;
        q := q + [c];
        assert NodeOK(View(), keySize, q);
      }
      LeafHasNone(q);
    }

    /** Lines 136-137: the leaf at `q` is unhung from the entry at `at`. */
    method Unhang(leaf: Entry, ghost q: Path)
      requires Owned() && q in nodes && leaf == nodes[q] && q != [] && Up(q) in nodes && Up(q) != q
      requires leaf.parent == nodes[Up(q)] && leaf.depth == |q| - 1 && |leaf.key| >= |q|
               && leaf.key[leaf.depth] == q[|q| - 1]
      requires nodes[Up(q)].children.Length == FANOUT && nodes[Up(q)].nelts > 0
      requires AllApart(Up(q))
      modifies this`nodes, leaf.parent, nodes[Up(q)].children
      ensures nodes == old(nodes) - {q} && Owned()
      ensures var cells := old(Contents());
              Contents() == (cells - {q})[Up(q) := Loses(cells[Up(q)], q[|q| - 1])]
    {
      ghost var at := Up(q);
      ghost var after := (Contents() - {q})[at := Loses(Contents()[at], q[|q| - 1])];
      forall r | r in nodes && r != at ensures nodes[r] != nodes[at] && nodes[r].children != nodes[at].children {
        assert Apart(nodes, at, r);
      }
      var parent: Entry := leaf.parent;
      parent.children[leaf.key[leaf.depth]] := null;
      parent.nelts := parent.nelts - 1;
      nodes := nodes - {q};
      ContentsIs(after);
    }

    /** Lines 138-142: the key and pointer of the leaf move up into `elts`, at `p`. */
    method Refill(elts: Entry, ghost p: Path, leaf: Entry)
      requires Owned() && p in nodes && elts == nodes[p]
      requires AllApart(p)
      modifies elts`key, elts`pointer
      ensures Owned() && Contents() == old(Contents()[p := Contents()[p].(key := leaf.key, pointer := leaf.pointer)])
    {
      ghost var after := Contents()[p := Contents()[p].(key := leaf.key, pointer := leaf.pointer)];
      forall r | r in nodes && r != p ensures nodes[r] != elts { assert Apart(nodes, p, r); }
      elts.key := leaf.key;
      elts.pointer := leaf.pointer;
      ContentsIs(after);
    }

    ghost predicate AllApart(p: Path)
      requires p in nodes
      reads this`nodes
    {
      forall r {:trigger Apart(nodes, p, r)} | r in nodes :: Apart(nodes, p, r)
    }

    /** What lines 136-142 rely on about the leaf `q` that is to fill the hole at `p`. */
    ghost predicate Detachable(p: Path, q: Path)
      requires Owned()
      reads this, Repr
    {
      && p in nodes && q in nodes && q != [] && Up(q) in nodes && Up(q) != q
      && nodes[q].parent == nodes[Up(q)] && nodes[q].depth == |q| - 1
      && |nodes[q].key| >= |q| && nodes[q].key[|q| - 1] == q[|q| - 1]
      && nodes[Up(q)].children.Length == FANOUT && nodes[Up(q)].nelts > 0
      && AllApart(p) && AllApart(Up(q))
    }

    lemma LeafFacts(p: Path, q: Path)
      requires Valid() && p in nodes && p != [] && Descends(View(), p, q)
      ensures Detachable(p, q)
    {
      ReachesBelow(View(), p, q);
      UnhangOK(nodes, Contents(), keySize, q);
      assert CellOK(nodes, keySize, q, Contents()[q]);
      assert NodeOK(View(), keySize, q);
      assert nodes[q].key[..|q|][|q| - 1] == q[|q| - 1];
    }

    /** Lines 136-142. */
    method Detach(elts: Entry, ghost p: Path, leaf: Entry, ghost q: Path)
      requires Owned() && Detachable(p, q) && elts == nodes[p] && leaf == nodes[q]
      modifies this`nodes, Repr
      ensures nodes == old(nodes) - {q} && Owned()
      ensures Contents() == Refilled(old(Contents()), p, q)
    {
      ghost var before := nodes;
      assert Apart(nodes, p, q) && Apart(nodes, Up(q), q);
      Unhang(leaf, q);
      if leaf != elts {
        forall r | r in nodes ensures Apart(nodes, p, r) { assert Apart(before, p, r); }
        Refill(elts, p, leaf);
      }
    }

    /** frl_radix_tree_remove (lines 109-148); `p` is the path of `elts`, `q` that of
        the leaf that is freed. */
    method Remove(elts: Entry, ghost p: Path) returns (ghost q: Path)
      requires Valid() && p in nodes && elts == nodes[p] && p != []
      modifies this`nodes, Repr
      ensures Valid() && Descends(old(View()), p, q)
      ensures View() == Removed(old(View()), p, q) && nodes == old(nodes) - {q}
    {
      var leaf: Entry;
      leaf, q := FindLeaf(elts, p);
      LeafFacts(p, q);
      DetachOK(nodes, Contents(), keySize, p, q);
      Detach(elts, p, leaf, q);
      assert nodes[[]] == root;
    }
  }
}
