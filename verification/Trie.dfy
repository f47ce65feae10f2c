/**
 The radix tree of src/lib/frl_radix_tree.c on values: a map from paths to the key
 and pointer stored there.  The path of a node is the sequence of child indices from
 the root; the root, whose key bytes are never initialised, has the empty path.

 `Search`, `Slot` and `Descends` follow the loops of get, add and remove; the lemmas
 relate them to the map from keys to pointers that the tree stands for.
 RadixTree.dfy proves that the pointer structure computes them.
 */
module Trie {
  import opened Basics

  type Key = seq<Byte>
  type Path = seq<Byte>
  type Pointer = int

  datatype Item = Item(key: Key, pointer: Pointer)

  type Nodes = map<Path, Item>

  function Up(p: Path): Path
    requires p != []
  {
    p[..|p| - 1]
  }

  /** Nodes are closed under parents, and a node's key starts with its path. */
  ghost predicate NodeOK(t: Nodes, size: nat, p: Path)
    requires p in t
  {
    && |p| <= size == |t[p].key|
    && (p != [] ==> Up(p) in t && t[p].key[..|p|] == p)
  }

  /** Every key has the length the tree was created for. */
  predicate KeysOf(t: Nodes, size: nat)
  {
    forall p | p in t :: |t[p].key| == size
  }

  ghost predicate Shape(t: Nodes, size: nat)
  {
    [] in t && (forall p {:trigger NodeOK(t, size, p)} | p in t :: NodeOK(t, size, p))
    && KeysOf(t, size)
  }

  ghost predicate Unique(t: Nodes)
  {
    forall p, q | p in t && q in t && p != [] && q != [] && t[p].key == t[q].key :: p == q
  }

  /** The map that the tree stands for. */
  ghost function Dict(t: Nodes): map<Key, Pointer>
    requires Unique(t)
  {
    map p | p in t && p != [] :: t[p].key := t[p].pointer
  }

  /** An initial part of an existing path exists. */
  lemma {:induction false} PrefixIn(t: Nodes, size: nat, p: Path, n: nat)
    requires Shape(t, size) && p in t && n <= |p|
    ensures p[..n] in t
    decreases |p| - n
  {
    if n == |p| { assert p[..n] == p; }
    else {
      PrefixIn(t, size, p, n + 1);
      assert NodeOK(t, size, p[..n + 1]);
      assert Up(p[..n + 1]) == p[..n];
    }
  }

  lemma PathOfKey(t: Nodes, size: nat, p: Path, n: nat)
    requires Shape(t, size) && p in t && p != [] && n <= |p|
    ensures |p| <= size == |t[p].key| && t[p].key[..|p|] == p && t[p].key[..n] in t
  {
    assert NodeOK(t, size, p);
    PrefixIn(t, size, p, n);
    assert p[..n] == t[p].key[..|p|][..n] == t[p].key[..n];
  }

  lemma FullPath(t: Nodes, size: nat, p: Path)
    requires Shape(t, size) && p in t && p != [] && |p| == size
    ensures t[p].key == p
  {
    PathOfKey(t, size, p, 0);
    assert t[p].key[..|p|] == t[p].key;
  }

  lemma DictAt(t: Nodes, p: Path)
    requires Unique(t) && p in t && p != []
    ensures t[p].key in Dict(t) && Dict(t)[t[p].key] == t[p].pointer
  {
  }

  lemma DictFrom(t: Nodes, k: Key) returns (p: Path)
    requires Unique(t) && k in Dict(t)
    ensures p in t && p != [] && t[p].key == k && Dict(t)[k] == t[p].pointer
  {
    p :| p in t && p != [] && t[p].key == k;
  }

  // --------------------------------------------------------------------- get

  /** frl_radix_tree_get from loop index `i` on: the path of the entry found. */
  function Search(t: Nodes, size: nat, key: Key, i: nat): Option<Path>
    requires i <= size == |key|
    requires KeysOf(t, size)
    decreases size - i
  {
    if i == size || key[..i + 1] !in t then None
    else if t[key[..i + 1]].key[i + 1..] == key[i + 1..] then Some(key[..i + 1])
    else Search(t, size, key, i + 1)
  }

  lemma {:induction false} SearchFinds(t: Nodes, size: nat, key: Key, i: nat)
    requires Shape(t, size) && i <= size == |key|
    ensures match Search(t, size, key, i)
            case Some(p) => p in t && p != [] && t[p].key == key
            case None => forall p | p in t && |p| > i :: t[p].key != key
    decreases size - i
  {
    if i == size || key[..i + 1] !in t {
      forall q | q in t && |q| > i ensures t[q].key != key { PathOfKey(t, size, q, i + 1); }
    } else {
      var p := key[..i + 1];
      PathOfKey(t, size, p, 0);
      assert t[p].key == t[p].key[..i + 1] + t[p].key[i + 1..];
      assert key == key[..i + 1] + key[i + 1..];
      if t[p].key[i + 1..] != key[i + 1..] {
        SearchFinds(t, size, key, i + 1);
        forall q | q in t && |q| == i + 1 && q != p ensures t[q].key != key { PathOfKey(t, size, q, 0); }
      }
    }
  }

  /** get returns exactly what the map holds. */
  lemma GetIsLookup(t: Nodes, size: nat, key: Key)
    requires Shape(t, size) && Unique(t) && |key| == size
    ensures match Search(t, size, key, 0)
            case Some(p) => key in Dict(t) && p in t && t[p].pointer == Dict(t)[key]
            case None => key !in Dict(t)
  {
    SearchFinds(t, size, key, 0);
  }

  // --------------------------------------------------------------------- add

  /** frl_radix_tree_add from loop index `i` on: the path of the leaf it creates,
      or None where it returns NULL.  Line 97 compares the key of the current node,
      at level i, from byte i + 1 on. */
  function Slot(t: Nodes, size: nat, key: Key, i: nat): Option<Path>
    requires i <= size == |key| && key[..i] in t
    requires KeysOf(t, size)
    decreases size - i
  {
    if i == size then None
    else if key[..i + 1] !in t then Some(key[..i + 1])
    else if t[key[..i]].key[i + 1..] == key[i + 1..] then None
    else Slot(t, size, key, i + 1)
  }

  function Added(t: Nodes, size: nat, key: Key, pointer: Pointer): Nodes
    requires |key| == size && [] in t && KeysOf(t, size)
  {
    match Slot(t, size, key, 0)
    case None => t
    case Some(p) => t[p := Item(key, pointer)]
  }

  /** The key of the node at level `i` towards `key` agrees with it from byte i + 1 on,
      although that node has a child in the direction of `key`. */
  ghost predicate Blocks(t: Nodes, size: nat, key: Key, i: nat)
    requires i < size == |key| && KeysOf(t, size)
  {
    key[..i] in t && key[..i + 1] in t && t[key[..i]].key[i + 1..] == key[i + 1..]
  }

  lemma {:induction false} SlotIsFree(t: Nodes, size: nat, key: Key, i: nat)
    requires Shape(t, size) && i <= size == |key| && key[..i] in t
    ensures match Slot(t, size, key, i)
            case Some(p) => p !in t && p != [] && |p| <= size && p == key[..|p|] && Up(p) in t
            case None => (exists j :: i <= j < size && Blocks(t, size, key, j)) || key in t
    ensures Slot(t, size, key, i).Some? ==> forall j | i <= j < size :: !Blocks(t, size, key, j)
    decreases size - i
  {
    if i == size {
      assert key[..i] == key;
    } else if key[..i + 1] !in t {
      assert Up(key[..i + 1]) == key[..i];
      forall j | i <= j < size ensures !Blocks(t, size, key, j) {
        assert key[..j + 1][..i + 1] == key[..i + 1];
        if key[..j + 1] in t {
          PrefixIn(t, size, key[..j + 1], i + 1);
        }
      }
    } else if t[key[..i]].key[i + 1..] == key[i + 1..] {
      assert Blocks(t, size, key, i);
    } else {
      SlotIsFree(t, size, key, i + 1);
    }
  }

  /** Exactly when add refuses an absent key: some node passed on the way down, the
      root with its arbitrary key bytes included, agrees with it beyond its own level. */
  lemma AddRefuses(t: Nodes, size: nat, key: Key)
    requires Shape(t, size) && |key| == size > 0
    requires forall p | p in t && p != [] :: t[p].key != key
    ensures Slot(t, size, key, 0) == None <==> exists j :: 0 <= j < size && Blocks(t, size, key, j)
  {
    assert key[..0] == [];
    SlotIsFree(t, size, key, 0);
    if key in t { FullPath(t, size, key); }
  }

  /** A leaf attached one level below a node on the way to its key keeps the shape. */
  lemma AttachKeepsShape(t: Nodes, size: nat, key: Key, pointer: Pointer, i: nat)
    requires Shape(t, size) && i < size == |key| && key[..i] in t
    ensures Shape(t[key[..i + 1] := Item(key, pointer)], size)
  {
    var t' := t[key[..i + 1] := Item(key, pointer)];
    assert Up(key[..i + 1]) == key[..i];
    forall p | p in t' ensures NodeOK(t', size, p) {
      if p in t { assert NodeOK(t, size, p); }
    }
  }

  /** Adding any key, absent or not, keeps the shape. */
  lemma AddKeepsShape(t: Nodes, size: nat, key: Key, pointer: Pointer)
    requires Shape(t, size) && |key| == size
    ensures Shape(Added(t, size, key, pointer), size)
  {
    assert key[..0] == [];
    SlotIsFree(t, size, key, 0);
    match Slot(t, size, key, 0)
    case None =>
    case Some(p) =>
      assert Up(p) == key[..|p| - 1];
      AttachKeepsShape(t, size, key, pointer, |p| - 1);
  }

  /** Binding an absent key at a free path. */
  lemma BindUnique(t: Nodes, at: Path, key: Key, pointer: Pointer)
    requires Unique(t) && at !in t && at != [] && key !in Dict(t)
    ensures Unique(t[at := Item(key, pointer)])
  {
    forall p | p in t && p != [] ensures t[p].key != key { assert t[p].key in Dict(t); }
  }

  lemma BindDict(t: Nodes, at: Path, key: Key, pointer: Pointer)
    requires Unique(t) && at !in t && at != [] && Unique(t[at := Item(key, pointer)])
    ensures var d, d' := Dict(t), Dict(t[at := Item(key, pointer)]);
            && key in d' && d'[key] == pointer
            && (forall k :: k in d' <==> k in d || k == key)
            && (forall k | k in d && k != key :: d'[k] == d[k])
  {
    var t' := t[at := Item(key, pointer)];
    DictAt(t', at);
    forall k | k in Dict(t) ensures k in Dict(t') && (k != key ==> Dict(t')[k] == Dict(t)[k]) {
      var p := DictFrom(t, k);
      DictAt(t', p);
    }
    forall k | k in Dict(t') ensures k in Dict(t) || k == key {
      var p := DictFrom(t', k);
      if p != at { DictAt(t, p); }
    }
  }

  lemma AddBinds(t: Nodes, size: nat, key: Key, pointer: Pointer)
    requires Shape(t, size) && Unique(t) && |key| == size && key !in Dict(t)
    ensures var t' := Added(t, size, key, pointer);
            && Unique(t')
            && Dict(t') == if Slot(t, size, key, 0) == None then Dict(t) else Dict(t)[key := pointer]
  {
    assert key[..0] == [];
    SlotIsFree(t, size, key, 0);
    match Slot(t, size, key, 0)
    case None =>
    case Some(at) =>
      BindUnique(t, at, key, pointer);
      BindDict(t, at, key, pointer);
  }

  /** add keeps keys unique exactly when the key was absent or it returned NULL. */
  lemma AddKeepsUnique(t: Nodes, size: nat, key: Key, pointer: Pointer)
    requires Shape(t, size) && Unique(t) && |key| == size
    ensures Unique(Added(t, size, key, pointer)) <==> key !in Dict(t) || Slot(t, size, key, 0) == None
  {
    assert key[..0] == [];
    SlotIsFree(t, size, key, 0);
    if key !in Dict(t) {
      AddBinds(t, size, key, pointer);
    } else if Slot(t, size, key, 0).Some? {
      var p := DictFrom(t, key);
      var at := Slot(t, size, key, 0).value;
      var t' := Added(t, size, key, pointer);
      assert t'[p].key == t'[at].key && p != at;
    }
  }

  // ------------------------------------------------------------------ remove

  ghost predicate IsLeaf(t: Nodes, p: Path)
  {
    forall c: Byte :: p + [c] !in t
  }

  /** The choice of lines 121-133: the first child that is itself a leaf, or the
      first child if none is. */
  ghost predicate Picks(t: Nodes, p: Path, c: Byte)
  {
    && p + [c] in t
    && if IsLeaf(t, p + [c]) then forall b: Byte | b < c && p + [b] in t :: !IsLeaf(t, p + [b])
       else forall b: Byte | p + [b] in t :: b >= c && !IsLeaf(t, p + [b])
  }

  /** `r` is reached from `p` by following choices. */
  ghost predicate Reaches(t: Nodes, p: Path, r: Path)
    decreases |r|
  {
    if |r| <= |p| then r == p && p in t
    else Reaches(t, p, Up(r)) && Picks(t, Up(r), r[|r| - 1])
  }

  /** The descent from `p` ends at the leaf `q`. */
  ghost predicate Descends(t: Nodes, p: Path, q: Path)
  {
    Reaches(t, p, q) && IsLeaf(t, q)
  }

  /** What is left when the entry at `p` is removed and the leaf `q` fills the hole. */
  function Removed(t: Nodes, p: Path, q: Path): Nodes
  {
    if q == p || q !in t then t - {p} else (t - {q})[p := t[q]]
  }

  lemma {:induction false} ReachesBelow(t: Nodes, p: Path, r: Path)
    requires Reaches(t, p, r)
    ensures p in t && r in t && |p| <= |r| && r[..|p|] == p
    decreases |r|
  {
    if |r| > |p| {
      ReachesBelow(t, p, Up(r));
      assert Up(r) + [r[|r| - 1]] == r;
      assert r[..|p|] == Up(r)[..|p|];
    }
  }

  lemma RemoveKeepsShape(t: Nodes, size: nat, p: Path, q: Path)
    requires Shape(t, size) && p != [] && Descends(t, p, q)
    ensures Shape(Removed(t, p, q), size)
  {
    ReachesBelow(t, p, q);
    var t' := Removed(t, p, q);
    forall r | r in t' ensures NodeOK(t', size, r) {
      assert NodeOK(t, size, r) && NodeOK(t, size, q);
      if r != [] {
        assert Up(r) + [r[|r| - 1]] == r;
        assert Up(r) != q;
      }
      if r == p && q != p { assert t[q].key[..|p|] == t[q].key[..|q|][..|p|]; }
    }
  }

  lemma RemovedItems(t: Nodes, p: Path, q: Path)
    requires p in t && q in t
    ensures forall r :: r in Removed(t, p, q) <==> r in t && r != (if p == q then p else q)
    ensures forall r | r in Removed(t, p, q) :: Removed(t, p, q)[r] == if r == p then t[q] else t[r]
  {
  }

  lemma RemovedUnique(t: Nodes, p: Path, q: Path)
    requires Unique(t) && p != [] && q != [] && p in t && q in t
    ensures Unique(Removed(t, p, q))
  {
    RemovedItems(t, p, q);
  }

  lemma RemovedDict(t: Nodes, p: Path, q: Path)
    requires Unique(t) && p != [] && q != [] && p in t && q in t && Unique(Removed(t, p, q))
    ensures var d, d' := Dict(t), Dict(Removed(t, p, q));
            && t[p].key in d
            && (forall k :: k in d' <==> k in d && k != t[p].key)
            && (forall k | k in d' :: d'[k] == d[k])
  {
    var t' := Removed(t, p, q);
    RemovedItems(t, p, q);
    DictAt(t, p);
    forall k | k in Dict(t) && k != t[p].key ensures k in Dict(t') && Dict(t')[k] == Dict(t)[k] {
      var r := DictFrom(t, k);
      DictAt(t', if r == q then p else r);
    }
    forall k | k in Dict(t') ensures k in Dict(t) && k != t[p].key {
      var r := DictFrom(t', k);
      DictAt(t, if r == p then q else r);
    }
  }

  /** remove deletes its own key and no other, although it moves a leaf. */
  lemma RemoveUnbinds(t: Nodes, p: Path, q: Path)
    requires Unique(t) && p != [] && Descends(t, p, q)
    ensures p in t && Unique(Removed(t, p, q))
    ensures t[p].key in Dict(t) && Dict(Removed(t, p, q)) == Dict(t) - {t[p].key}
  {
    ReachesBelow(t, p, q);
    RemovedUnique(t, p, q);
    RemovedDict(t, p, q);
  }

  // ----------------------------------------------------------- runs of calls

  datatype Op = Add(key: Key, pointer: Pointer) | Remove(key: Key)

  /** One client call: an add, or a get followed by a remove of the entry found. */
  ghost predicate Step(t: Nodes, size: nat, op: Op, t': Nodes)
  {
    && [] in t && KeysOf(t, size) && |op.key| == size
    && match op
       case Add(key, pointer) => t' == Added(t, size, key, pointer)
       case Remove(key) =>
         match Search(t, size, key, 0)
         case None => t' == t
         case Some(p) => exists q :: Descends(t, p, q) && t' == Removed(t, p, q)
  }

  /** The map after one call; `accepted` is whether add returned an entry. */
  function Update(d: map<Key, Pointer>, op: Op, accepted: bool): map<Key, Pointer>
  {
    match op
    case Add(key, pointer) => if accepted then d[key := pointer] else d
    case Remove(key) => d - {key}
  }

  function Accepts(t: Nodes, size: nat, op: Op): bool
    requires [] in t && KeysOf(t, size) && |op.key| == size
  {
    op.Add? && Slot(t, size, op.key, 0).Some?
  }

  lemma StepRefines(t: Nodes, size: nat, op: Op, t': Nodes)
    requires Shape(t, size) && Unique(t) && Step(t, size, op, t')
    requires op.Add? ==> op.key !in Dict(t)
    ensures Shape(t', size) && Unique(t')
    ensures Dict(t') == Update(Dict(t), op, Accepts(t, size, op))
  {
    match op
    case Add(key, pointer) =>
      AddKeepsShape(t, size, key, pointer);
      AddBinds(t, size, key, pointer);
    case Remove(key) =>
      SearchFinds(t, size, key, 0);
      match Search(t, size, key, 0)
      case None => GetIsLookup(t, size, key);
      case Some(p) =>
        var q :| Descends(t, p, q) && t' == Removed(t, p, q);
        RemoveKeepsShape(t, size, p, q);
        RemoveUnbinds(t, p, q);
  }

  /** A run of calls on a tree that starts with nothing but its root, in which keys
      are added only while absent. */
  ghost predicate Run(ts: seq<Nodes>, ds: seq<map<Key, Pointer>>, size: nat, ops: seq<Op>)
  {
    && |ts| == |ds| == |ops| + 1
    && ts[0].Keys == {[]} && |ts[0][[]].key| == size && ds[0] == map[]
    && forall i | 0 <= i < |ops| ::
         && Step(ts[i], size, ops[i], ts[i + 1])
         && ds[i + 1] == Update(ds[i], ops[i], Accepts(ts[i], size, ops[i]))
         && (ops[i].Add? ==> ops[i].key !in ds[i])
  }

  /** Over every run, the tree is the map: the shape is kept, and get answers what
      the map would. */
  lemma {:induction false} TreeIsMap(ts: seq<Nodes>, ds: seq<map<Key, Pointer>>, size: nat, ops: seq<Op>, i: nat,
                                     key: Key)
    requires Run(ts, ds, size, ops) && i <= |ops| && |key| == size
    ensures Shape(ts[i], size) && Unique(ts[i]) && Dict(ts[i]) == ds[i]
    ensures match Search(ts[i], size, key, 0)
            case Some(p) => p in ts[i] && key in ds[i] && ts[i][p].pointer == ds[i][key]
            case None => key !in ds[i]
  {
    if i == 0 {
      assert NodeOK(ts[0], size, []);
      assert Dict(ts[0]) == map[];
    } else {
      TreeIsMap(ts, ds, size, ops, i - 1, key);
      StepRefines(ts[i - 1], size, ops[i - 1], ts[i]);
    }
    GetIsLookup(ts[i], size, key);
  }

  // ------------------------------------------------- every call can be made

  lemma {:induction false} Least(s: set<Byte>, k: Byte) returns (m: Byte)
    requires k in s
    ensures m in s && forall x <- s :: m <= x
    decreases k
  {
    if x :| x in s && x < k {
      m := Least(s, x);
    } else {
      m := k;
    }
  }

  /** At a node with children there is one to pick. */
  lemma PickExists(t: Nodes, r: Path) returns (c: Byte)
    requires !IsLeaf(t, r)
    ensures Picks(t, r, c)
  {
    var children := set b: Byte | r + [b] in t;
    var leaves := set b | b in children && IsLeaf(t, r + [b]);
    var child: Byte :| r + [child] in t;
    assert child in children;
    if leaf :| leaf in leaves {
      c := Least(leaves, leaf);
      assert forall b: Byte | b < c && r + [b] in t :: b in children && b !in leaves;
    } else {
      c := Least(children, child);
      assert forall b: Byte | r + [b] in t :: b in children && b !in leaves;
    }
  }

  /** The descent ends, as no path is longer than a key. */
  lemma {:induction false} DescentEnds(t: Nodes, size: nat, p: Path, r: Path) returns (q: Path)
    requires Shape(t, size) && Reaches(t, p, r)
    ensures Descends(t, p, q)
    decreases size + 1 - |r|
  {
    ReachesBelow(t, p, r);
    assert NodeOK(t, size, r);
    if IsLeaf(t, r) {
      q := r;
    } else {
      var c := PickExists(t, r);
      assert Up(r + [c]) == r && NodeOK(t, size, r + [c]);
      q := DescentEnds(t, size, p, r + [c]);
    }
  }

  /** After any run every call can be made, with any key: get, add and remove come to an
      end, and remove finds a leaf to take. */
  lemma EveryCallEnds(ts: seq<Nodes>, ds: seq<map<Key, Pointer>>, size: nat, ops: seq<Op>, op: Op) returns (t': Nodes)
    requires Run(ts, ds, size, ops) && |op.key| == size
    ensures Step(ts[|ops|], size, op, t')
  {
    TreeIsMap(ts, ds, size, ops, |ops|, op.key);
    var t := ts[|ops|];
    match op
    case Add(key, pointer) => t' := Added(t, size, key, pointer);
    case Remove(key) =>
      match Search(t, size, key, 0)
      case None => t' := t;
      case Some(p) =>
        var q := DescentEnds(t, size, p, p);
        t' := Removed(t, p, q);
  }

  // ------------------------------------------------------- an absent key refused

  /** The tree after the first `n` adds. */
  function Stage(root: Key, n: nat): Nodes
  {
    if n == 0 then map[[] := Item(root, 0)]
    else if n == 1 then map[[] := Item(root, 0), [1] := Item([1, 2, 3], 0)]
    else map[[] := Item(root, 0), [1] := Item([1, 2, 3], 0), [1, 4] := Item([1, 4, 9], 0)]
  }

  lemma Stages(root: Key)
    requires |root| == 3
    ensures KeysOf(Stage(root, 0), 3) && KeysOf(Stage(root, 1), 3)
    ensures Slot(Stage(root, 0), 3, [1, 2, 3], 0) == Some([1])
    ensures Slot(Stage(root, 1), 3, [1, 4, 9], 0) == if root[1..] == [4, 9] then None else Some([1, 4])
  {
    var first: Key, second: Key := [1, 2, 3], [1, 4, 9];
    assert first[..0] == [] && first[..1] == [1];
    assert second[..0] == [] && second[..1] == [1] && second[..2] == [1, 4];
    assert second[1..] == [4, 9] && first[2..] == [3] && second[2..] == [9];
    var t1 := Stage(root, 1);
    assert t1[[1]].key[2..] == [3] && Slot(t1, 3, second, 1) == Some([1, 4]);
  }

  lemma StageSteps(root: Key)
    requires |root| == 3
    ensures Step(Stage(root, 0), 3, Add([1, 2, 3], 0), Stage(root, 1)) && Accepts(Stage(root, 0), 3, Add([1, 2, 3], 0))
    ensures KeysOf(Stage(root, 1), 3)
    ensures Step(Stage(root, 1), 3, Add([1, 4, 9], 0), Stage(root, 2)) <==> root[1..] != [4, 9]
    ensures Accepts(Stage(root, 1), 3, Add([1, 4, 9], 0)) <==> root[1..] != [4, 9]
  {
    Stages(root);
    hide Slot;
    var one: Path, two: Path := [1], [1, 4];
    assert Stage(root, 1) == Stage(root, 0)[one := Item([1, 2, 3], 0)];
    assert Stage(root, 2) == Stage(root, 1)[two := Item([1, 4, 9], 0)];
    assert two !in Stage(root, 1) && two in Stage(root, 2);
  }

  /** An absent key that add refuses.  Two adds put "1 2 3" at path 1 and "1 4 9" at path
      1 4, unless the root happens to hold "4 9"; then adding "1 4 3" stops at the node
      that holds "1 2 3", whatever the root holds. */
  lemma AbsentKeyRefused(root: Key)
    requires |root| == 3
    ensures var t := Stage(root, 2);
            && Shape(t, 3) && Unique(t) && [1, 4, 3] !in Dict(t)
            && Slot(t, 3, [1, 4, 3], 0) == None
    ensures root[1..] != [4, 9] <==>
              Run([Stage(root, 0), Stage(root, 1), Stage(root, 2)],
                  [map[], map[[1, 2, 3] := 0], map[[1, 2, 3] := 0, [1, 4, 9] := 0]], 3,
                  [Add([1, 2, 3], 0), Add([1, 4, 9], 0)])
  {
    RefusedAt(root);
    StageSteps(root);
    var one: Key, two: Key := [1, 2, 3], [1, 4, 9];
    assert one[1] != two[1];
    assert Stage(root, 0).Keys == {[]};
    hide Stage, Accepts, Run;
    var d0: map<Key, Pointer> := map[];
    TwoCalls(Stage(root, 0), Stage(root, 1), Stage(root, 2), d0, map[one := 0], map[one := 0, two := 0],
             3, Add(one, 0), Add(two, 0));
  }

  lemma TwoCalls(t0: Nodes, t1: Nodes, t2: Nodes, d0: map<Key, Pointer>, d1: map<Key, Pointer>, d2: map<Key, Pointer>,
                 size: nat, op0: Op, op1: Op)
    requires t0.Keys == {[]} && |t0[[]].key| == size && d0 == map[] && Step(t0, size, op0, t1)
    requires d1 == Update(d0, op0, Accepts(t0, size, op0)) && (op0.Add? ==> op0.key !in d0)
    ensures Run([t0, t1, t2], [d0, d1, d2], size, [op0, op1]) <==>
              Step(t1, size, op1, t2) && d2 == Update(d1, op1, Accepts(t1, size, op1)) && (op1.Add? ==> op1.key !in d1)
  {
    hide Added, Search, Slot, Update;
    var ts, ds, ops := [t0, t1, t2], [d0, d1, d2], [op0, op1];
    if Run(ts, ds, size, ops) {
      assert Step(ts[1], size, ops[1], ts[1 + 1]) && ds[1 + 1] == Update(ds[1], ops[1], Accepts(ts[1], size, ops[1]));
    }
  }

  lemma StageShape(root: Key)
    requires |root| == 3
    ensures Shape(Stage(root, 2), 3) && Unique(Stage(root, 2)) && [1, 4, 3] !in Dict(Stage(root, 2))
  {
    var t := Stage(root, 2);
    var one: Path, two: Path := [1], [1, 4];
    assert Up(one) == [] && Up(two) == one;
    assert NodeOK(t, 3, []) && NodeOK(t, 3, one) && NodeOK(t, 3, two);
  }

  lemma RefusedAt(root: Key)
    requires |root| == 3
    ensures Shape(Stage(root, 2), 3) && Unique(Stage(root, 2)) && [1, 4, 3] !in Dict(Stage(root, 2))
    ensures Slot(Stage(root, 2), 3, [1, 4, 3], 0) == None
  {
    var t := Stage(root, 2);
    var key: Key := [1, 4, 3];
    StageShape(root);
    assert key[..0] == [] && key[..1] == [1] && key[..2] == [1, 4];
    assert [1, 2, 3][2..] == key[2..];
    assert Slot(t, 3, key, 1) == None;
  }
}
