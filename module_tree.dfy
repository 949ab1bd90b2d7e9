/**
 * The tree of generated Rust modules (spatialos-sdk-code-generator/src/lib.rs,
 * `Module`, `get_submodule` and `Module::to_tokens`).
 *
 * In the source each module owns a `BTreeMap` from names to child modules and
 * `get_submodule` walks that tree, inserting default modules as it goes, and
 * hands back a mutable reference to the last one. Here the modules live in one
 * arena, `ModuleForest.nodes`; a child map holds node indices, and the
 * reference handed back is an index. Node 0 stands for the top-level map that
 * `generate` keeps outside any module: its children are the top-level modules.
 */
module ModuleTree {
  import opened Wrappers

  // ---------------------------------------------------------------------------
  // The ordering of `String` keys
  // ---------------------------------------------------------------------------

  /** `a < b` for Rust strings: lexicographic on characters, a proper prefix first. */
  predicate Below(a: string, b: string)
    decreases |a|
  {
    if |b| == 0 then false
    else if |a| == 0 then true
    else if a[0] != b[0] then a[0] < b[0]
    else Below(a[1..], b[1..])
  }

  lemma {:induction false} BelowIrreflexive(a: string)
    ensures !Below(a, a)
    decreases |a|
  {
    if |a| > 0 {
      BelowIrreflexive(a[1..]);
    }
  }

  lemma {:induction false} BelowTransitive(a: string, b: string, c: string)
    requires Below(a, b) && Below(b, c)
    ensures Below(a, c)
    decreases |a|
  {
    if |a| > 0 && a[0] == b[0] && b[0] == c[0] {
      BelowTransitive(a[1..], b[1..], c[1..]);
    }
  }

  lemma {:induction false} BelowTotal(a: string, b: string)
    requires a != b
    ensures Below(a, b) || Below(b, a)
    decreases |a|
  {
    if |a| > 0 && |b| > 0 && a[0] == b[0] {
      assert a == [a[0]] + a[1..] && b == [b[0]] + b[1..];
      BelowTotal(a[1..], b[1..]);
    }
  }

  lemma BelowAsymmetric(a: string, b: string)
    requires Below(a, b)
    ensures !Below(b, a)
  {
    if Below(b, a) {
      BelowTransitive(a, b, a);
      BelowIrreflexive(a);
    }
  }

  // ---------------------------------------------------------------------------
  // A child map: `BTreeMap<String, Module>` as a list of (name, node) sorted by name
  // ---------------------------------------------------------------------------

  type ChildMap = seq<(string, nat)>

  /** Keys strictly ascending: the order a `BTreeMap` iterates in, each key once. */
  predicate SortedKeys(cs: ChildMap)
  {
    forall i, j :: 0 <= i < j < |cs| ==> Below(cs[i].0, cs[j].0)
  }

  /** `BTreeMap::get`. */
  function Lookup(cs: ChildMap, key: string): (r: Option<nat>)
    ensures r.Some? ==> (key, r.value) in cs
    ensures r.None? <==> forall i :: 0 <= i < |cs| ==> cs[i].0 != key
  {
    if cs == [] then None
    else if cs[0].0 == key then Some(cs[0].1)
    else Lookup(cs[1..], key)
  }

  /** In a sorted map the entry under a key is the one `Lookup` finds. */
  lemma {:induction false} LookupSorted(cs: ChildMap, key: string, node: nat)
    requires SortedKeys(cs)
    requires (key, node) in cs
    ensures Lookup(cs, key) == Some(node)
    decreases |cs|
  {
    if cs[0] != (key, node) {
      var i :| 0 <= i < |cs| && cs[i] == (key, node);
      assert i != 0;
      assert Below(cs[0].0, key);
      BelowIrreflexive(key);
      assert cs[1..][i - 1] == (key, node);
      LookupSorted(cs[1..], key, node);
    }
  }

  /** `entry(key).or_insert_with(..)` on an absent key: the map with one more entry, still sorted. */
  function InsertSorted(cs: ChildMap, key: string, node: nat): (r: ChildMap)
    requires SortedKeys(cs)
    requires Lookup(cs, key).None?
    ensures SortedKeys(r)
    ensures |r| == |cs| + 1
    ensures forall e :: e in r <==> e in cs || e == (key, node)
    decreases |cs|
  {
    if cs == [] then [(key, node)]
    else if Below(key, cs[0].0) then
      assert forall j :: 0 <= j < |cs| ==> Below(key, cs[j].0) by {
        forall j | 0 < j < |cs| ensures Below(key, cs[j].0) {
          BelowTransitive(key, cs[0].0, cs[j].0);
        }
      }
      [(key, node)] + cs
    else
      var rest := InsertSorted(cs[1..], key, node);
      BelowTotal(key, cs[0].0);
      assert forall e :: e in rest ==> Below(cs[0].0, e.0) by {
        forall e | e in rest ensures Below(cs[0].0, e.0) {
          if e != (key, node) {
            var j :| 0 <= j < |cs[1..]| && cs[1..][j] == e;
            assert cs[j + 1] == e;
          }
        }
      }
      [cs[0]] + rest
  }

  /** Two sorted maps with the same entries are the same list: a `BTreeMap`'s order is canonical. */
  lemma {:induction false} SortedCanonical(a: ChildMap, b: ChildMap)
    requires SortedKeys(a) && SortedKeys(b)
    requires forall e :: e in a <==> e in b
    ensures a == b
    decreases |a|
  {
    assert a != [] ==> a[0] in a;
    assert b != [] ==> b[0] in b;
    if a != [] && b != [] {
      if a[0] != b[0] {
        assert b[0] in a;
        assert a[0] in b;
        var i :| 0 <= i < |a| && a[i] == b[0];
        var j :| 0 <= j < |b| && b[j] == a[0];
        assert Below(a[0].0, b[0].0) by {
          assert i != 0;
          assert Below(a[0].0, a[i].0);
        }
        assert Below(b[0].0, a[0].0) by {
          assert j != 0;
          assert Below(b[0].0, b[j].0);
        }
        BelowAsymmetric(a[0].0, b[0].0);
        assert false;
      }
      assert a == [a[0]] + a[1..] && b == [b[0]] + b[1..];
      forall e ensures e in a[1..] <==> e in b[1..] {
        if e in a[1..] {
          var i :| 0 <= i < |a[1..]| && a[1..][i] == e;
          assert a[i + 1] == e;
          assert Below(a[0].0, e.0);
          BelowIrreflexive(e.0);
          assert e in b && e != b[0];
        }
        if e in b[1..] {
          var j :| 0 <= j < |b[1..]| && b[1..][j] == e;
          assert b[j + 1] == e;
          assert Below(b[0].0, e.0);
          BelowIrreflexive(e.0);
          assert e in a && e != a[0];
        }
      }
      SortedCanonical(a[1..], b[1..]);
      assert a == [a[0]] + a[1..] && b == [b[0]] + b[1..];
    }
  }

  /** Inserting two new keys gives the same map in either order (the iteration order is not the insertion order). */
  lemma InsertCommutes(cs: ChildMap, k1: string, n1: nat, k2: string, n2: nat)
    requires SortedKeys(cs) && k1 != k2
    requires Lookup(cs, k1).None? && Lookup(cs, k2).None?
    ensures Lookup(InsertSorted(cs, k1, n1), k2).None? && Lookup(InsertSorted(cs, k2, n2), k1).None?
    ensures InsertSorted(InsertSorted(cs, k1, n1), k2, n2) == InsertSorted(InsertSorted(cs, k2, n2), k1, n1)
  {
    SortedCanonical(InsertSorted(InsertSorted(cs, k1, n1), k2, n2), InsertSorted(InsertSorted(cs, k2, n2), k1, n1));
  }

  // ---------------------------------------------------------------------------
  // Modules and paths through them
  // ---------------------------------------------------------------------------

  /** `Module`: the prelude injected at its top, its items, and its child modules. */
  datatype Node = Node(prelude: string, items: seq<string>, children: ChildMap)

  /** Every child index points forward, so the arena is a forest rendered without cycles. */
  predicate WellFormed(nodes: seq<Node>)
  {
    (forall i :: 0 <= i < |nodes| ==> SortedKeys(nodes[i].children)) &&
    (forall i, k :: 0 <= i < |nodes| && 0 <= k < |nodes[i].children| ==>
       i < nodes[i].children[k].1 < |nodes|)
  }

  /** The node reached from `start` by looking each segment of `path` up in turn. */
  function WalkFrom(nodes: seq<Node>, start: nat, path: seq<string>): Option<nat>
    decreases |path|
  {
    if path == [] then Some(start)
    else if start >= |nodes| then None
    else match Lookup(nodes[start].children, path[0])
      case None => None
      case Some(next) => WalkFrom(nodes, next, path[1..])
  }

  /** One more segment is one more lookup at the end of the walk. */
  lemma {:induction false} WalkFromSnoc(nodes: seq<Node>, start: nat, path: seq<string>, seg: string)
    ensures WalkFrom(nodes, start, path + [seg]) ==
            match WalkFrom(nodes, start, path)
            case None => None
            case Some(m) => if m >= |nodes| then None else Lookup(nodes[m].children, seg)
    decreases |path|
  {
    if path == [] {
      assert ([] + [seg])[1..] == [];
    } else {
      assert (path + [seg])[0] == path[0];
      assert (path + [seg])[1..] == path[1..] + [seg];
      if start < |nodes| {
        match Lookup(nodes[start].children, path[0])
        case None =>
        case Some(next) => WalkFromSnoc(nodes, next, path[1..], seg);
      }
    }
  }

  /** Walking `p` and then `q` is walking `p + q`. */
  lemma {:induction false} WalkFromAppend(nodes: seq<Node>, start: nat, p: seq<string>, q: seq<string>)
    requires WalkFrom(nodes, start, p).Some?
    ensures WalkFrom(nodes, start, p + q) == WalkFrom(nodes, WalkFrom(nodes, start, p).value, q)
    decreases |p|
  {
    if p == [] {
      assert p + q == q;
    } else {
      assert (p + q)[0] == p[0];
      assert (p + q)[1..] == p[1..] + q;
      var next := Lookup(nodes[start].children, p[0]).value;
      WalkFromAppend(nodes, next, p[1..], q);
    }
  }

  /**
   * The tree shape of `old` grows into that of `new` without replacing
   * anything: each old module keeps every child entry, and a child entry added
   * to an old module points to a module that did not exist before.
   */
  predicate Grows(old_: seq<Node>, new_: seq<Node>)
  {
    |old_| <= |new_| &&
    forall i :: 0 <= i < |old_| ==>
      (forall e :: e in old_[i].children ==> e in new_[i].children) &&
      (forall e :: e in new_[i].children ==> e in old_[i].children || e.1 >= |old_|)
  }

  /** `nodes` with a default module appended and entered under `seg` in the map of `parent`. */
  function WithChild(nodes: seq<Node>, parent: nat, seg: string, prelude: string): seq<Node>
    requires WellFormed(nodes) && parent < |nodes|
    requires Lookup(nodes[parent].children, seg).None?
  {
    var p := nodes[parent];
    nodes[parent := p.(children := InsertSorted(p.children, seg, |nodes|))] + [Node(prelude, [], [])]
  }

  lemma WithChildGrows(nodes: seq<Node>, parent: nat, seg: string, prelude: string)
    requires WellFormed(nodes) && parent < |nodes|
    requires Lookup(nodes[parent].children, seg).None?
    ensures var new_ := WithChild(nodes, parent, seg, prelude);
            WellFormed(new_) && Grows(nodes, new_) &&
            WalkFrom(new_, parent, [seg]) == Some(|nodes|)
  {
    var new_ := WithChild(nodes, parent, seg, prelude);
    var child := |nodes|;
    forall i, k | 0 <= i < |new_| && 0 <= k < |new_[i].children|
      ensures i < new_[i].children[k].1 < |new_|
    {
      if i == parent {
        var e := new_[i].children[k];
        if e != (seg, child) {
          assert e in nodes[parent].children;
          var k' :| 0 <= k' < |nodes[parent].children| && nodes[parent].children[k'] == e;
        }
      }
    }
    LookupSorted(new_[parent].children, seg, child);
    assert [seg][1..] == [];
  }

  lemma SliceSnoc<T>(s: seq<T>, k: nat)
    requires k < |s|
    ensures s[..k + 1] == s[..k] + [s[k]]
  {
  }

  lemma PrefixTransitive<T>(a: seq<T>, b: seq<T>, c: seq<T>)
    requires a <= b && b <= c
    ensures a <= c
  {
    assert c[..|a|] == b[..|a|];
  }

  lemma ExtendPath(base: seq<string>, path: seq<string>, k: nat)
    requires k < |path|
    ensures (base + path[..k]) + [path[k]] == base + path[..k + 1]
  {
    assert path[..k + 1] == path[..k] + [path[k]];
  }

  lemma GrowsTransitive(a: seq<Node>, b: seq<Node>, c: seq<Node>)
    requires Grows(a, b) && Grows(b, c)
    ensures Grows(a, c)
  {
  }

  /**
   * What get_submodule does to the arena: the tree grows, every module that
   * existed keeps its prelude and items, and every module added is a clone of
   * the default module, which has no items.
   */
  predicate Keeps(old_: seq<Node>, new_: seq<Node>, prelude: string)
  {
    Grows(old_, new_) &&
    (forall i :: 0 <= i < |old_| ==> new_[i].items == old_[i].items && new_[i].prelude == old_[i].prelude) &&
    (forall i :: |old_| <= i < |new_| ==> new_[i].items == [] && new_[i].prelude == prelude)
  }

  /**
   * One round of get_submodule's loop adds at most the module for
   * `base + path[..k + 1]`, so every module added so far lies on the walked path.
   */
  lemma NewPathsOnWalk(n0: nat, before: seq<seq<string>>, after: seq<seq<string>>, base: seq<string>,
                       path: seq<string>, k: nat)
    requires k < |path| && n0 <= |before| <= |after| <= |before| + 1 && before <= after
    requires forall i :: n0 <= i < |before| ==> |base| < |before[i]| && before[i] <= base + path[..k]
    requires |after| == |before| + 1 ==> after[|before|] == base + path[..k + 1]
    ensures forall i :: n0 <= i < |after| ==> |base| < |after[i]| && after[i] <= base + path[..k + 1]
  {
    assert base + path[..k + 1] == (base + path[..k]) + [path[k]];
    forall i | n0 <= i < |after|
      ensures |base| < |after[i]| && after[i] <= base + path[..k + 1]
    {
      if i < |before| {
        assert after[i] == before[i];
      }
    }
  }

  lemma KeepsTransitive(a: seq<Node>, b: seq<Node>, c: seq<Node>, prelude: string)
    requires Keeps(a, b, prelude) && Keeps(b, c, prelude)
    ensures Keeps(a, c, prelude)
  {
  }

  /** A module reachable before growth is reached by the same path afterwards. */
  lemma {:induction false} WalkGrows(old_: seq<Node>, new_: seq<Node>, start: nat, path: seq<string>)
    requires Grows(old_, new_) && WellFormed(new_)
    requires WalkFrom(old_, start, path).Some?
    ensures WalkFrom(new_, start, path) == WalkFrom(old_, start, path)
    decreases |path|
  {
    if path != [] {
      var next := Lookup(old_[start].children, path[0]).value;
      LookupSorted(new_[start].children, path[0], next);
      WalkGrows(old_, new_, next, path[1..]);
    }
  }

  /** A module reachable from the top is rendered in order: prelude, children by name, items. */
  function ModuleText(nodes: seq<Node>, i: nat): string
    requires WellFormed(nodes) && i < |nodes|
    decreases |nodes| - i, 1
  {
    nodes[i].prelude + ChildrenText(nodes, i, nodes[i].children) + Concat(nodes[i].items)
  }

  /** `pub mod name { .. }` for each child, in the order of the map. */
  function ChildrenText(nodes: seq<Node>, parent: nat, cs: ChildMap): string
    requires WellFormed(nodes) && parent < |nodes|
    requires forall k :: 0 <= k < |cs| ==> parent < cs[k].1 < |nodes|
    decreases |nodes| - parent, 0, |cs|
  {
    if cs == [] then ""
    else ModEntry(cs[0].0, ModuleText(nodes, cs[0].1)) + ChildrenText(nodes, parent, cs[1..])
  }

  /** One child module around its rendered body. */
  function ModEntry(name: string, body: string): string
  {
    "pub mod " + name + " { " + body + " } "
  }

  /** The item token streams one after the other, in insertion order. */
  function Concat(items: seq<string>): string
  {
    if items == [] then "" else Concat(items[..|items| - 1]) + items[|items| - 1]
  }

  /**
   * The top-level modules from the `k`-th on, each as
   * `#[allow(unused_imports)] pub mod name { .. }`, by ascending name.
   */
  function TopText(nodes: seq<Node>, cs: ChildMap, k: nat): string
    requires WellFormed(nodes) && |nodes| > 0 && k <= |cs|
    requires forall j :: 0 <= j < |cs| ==> 0 < cs[j].1 < |nodes|
    decreases |cs| - k
  {
    if k == |cs| then ""
    else TopEntry(cs[k].0, ModuleText(nodes, cs[k].1)) + TopText(nodes, cs, k + 1)
  }

  /** One top-level module around its rendered body. */
  function TopEntry(name: string, body: string): string
  {
    "#[allow(unused_imports)] pub mod " + name + " { " + body + " } "
  }

  /** The whole top-level text of a tree of modules. */
  function RawText(nodes: seq<Node>): string
    requires WellFormed(nodes) && |nodes| > 0
  {
    assert forall j :: 0 <= j < |nodes[0].children| ==> 0 < nodes[0].children[j].1 < |nodes|;
    TopText(nodes, nodes[0].children, 0)
  }

  /** The top-level modules of two trees, with the same names and rendering alike one by one, from the `k`-th on. */
  lemma {:induction false} TopTextSame(n1: seq<Node>, n2: seq<Node>, cs1: ChildMap, cs2: ChildMap, k: nat)
    requires WellFormed(n1) && WellFormed(n2) && |n1| > 0 && |n2| > 0
    requires forall q :: 0 <= q < |cs1| ==> 0 < cs1[q].1 < |n1|
    requires forall q :: 0 <= q < |cs2| ==> 0 < cs2[q].1 < |n2|
    requires |cs1| == |cs2| && k <= |cs1|
    requires forall q :: 0 <= q < |cs1| ==> cs1[q].0 == cs2[q].0
    requires forall q :: 0 <= q < |cs1| ==> ModuleText(n1, cs1[q].1) == ModuleText(n2, cs2[q].1)
    ensures TopText(n1, cs1, k) == TopText(n2, cs2, k)
    decreases |cs1| - k
  {
    if k < |cs1| {
      TopTextSame(n1, n2, cs1, cs2, k + 1);
      TopTextStep(n1, n2, cs1, cs2, k);
    }
  }

  /** One more top-level module, with the same name and body, in front of equal texts. */
  lemma TopTextStep(n1: seq<Node>, n2: seq<Node>, cs1: ChildMap, cs2: ChildMap, k: nat)
    requires WellFormed(n1) && WellFormed(n2) && |n1| > 0 && |n2| > 0
    requires forall q :: 0 <= q < |cs1| ==> 0 < cs1[q].1 < |n1|
    requires forall q :: 0 <= q < |cs2| ==> 0 < cs2[q].1 < |n2|
    requires |cs1| == |cs2| && k < |cs1|
    requires cs1[k].0 == cs2[k].0 && ModuleText(n1, cs1[k].1) == ModuleText(n2, cs2[k].1)
    requires TopText(n1, cs1, k + 1) == TopText(n2, cs2, k + 1)
    ensures TopText(n1, cs1, k) == TopText(n2, cs2, k)
  {
  }

  // ---------------------------------------------------------------------------
  // The arena
  // ---------------------------------------------------------------------------

  /**
   * An arena with the path of each node: node 0 is the top, each child entry
   * leads to the node whose path is its parent's path and the entry's name, and
   * every path walks from the top to its own node.
   */
  ghost predicate Arena(nodes: seq<Node>, paths: seq<seq<string>>)
  {
    |nodes| > 0 && |paths| == |nodes| && paths[0] == [] &&
    WellFormed(nodes) && ChildPaths(nodes, paths) && Reached(nodes, paths)
  }

  ghost predicate ChildPaths(nodes: seq<Node>, paths: seq<seq<string>>)
    requires WellFormed(nodes) && |paths| == |nodes|
  {
    forall i, k :: 0 <= i < |nodes| && 0 <= k < |nodes[i].children| ==>
      paths[nodes[i].children[k].1] == paths[i] + [nodes[i].children[k].0]
  }

  ghost predicate Reached(nodes: seq<Node>, paths: seq<seq<string>>)
    requires |paths| == |nodes|
  {
    forall i :: 0 <= i < |nodes| ==> WalkFrom(nodes, 0, paths[i]) == Some(i)
  }

  /** Adding a default child keeps the arena consistent, and the new path did not lead anywhere before. */
  lemma WithChildArena(nodes: seq<Node>, paths: seq<seq<string>>, parent: nat, seg: string, prelude: string)
    requires Arena(nodes, paths) && parent < |nodes|
    requires Lookup(nodes[parent].children, seg).None?
    ensures Arena(WithChild(nodes, parent, seg, prelude), paths + [paths[parent] + [seg]])
  {
    var new_ := WithChild(nodes, parent, seg, prelude);
    var newPaths := paths + [paths[parent] + [seg]];
    var child := |nodes|;
    WithChildGrows(nodes, parent, seg, prelude);
    forall i, k | 0 <= i < |new_| && 0 <= k < |new_[i].children|
      ensures newPaths[new_[i].children[k].1] == newPaths[i] + [new_[i].children[k].0]
    {
      var e := new_[i].children[k];
      if e != (seg, child) {
        assert e in nodes[i].children;
        var k' :| 0 <= k' < |nodes[i].children| && nodes[i].children[k'] == e;
      }
    }
    forall i | 0 <= i < |new_|
      ensures WalkFrom(new_, 0, newPaths[i]) == Some(i)
    {
      if i < child {
        WalkGrows(nodes, new_, 0, paths[i]);
      } else {
        WalkGrows(nodes, new_, 0, paths[parent]);
        WalkFromAppend(new_, 0, paths[parent], [seg]);
      }
    }
  }

  /** Entering an existing child extends the path by its name. */
  lemma ExistingChild(nodes: seq<Node>, paths: seq<seq<string>>, m: nat, seg: string)
    requires Arena(nodes, paths) && m < |nodes|
    requires Lookup(nodes[m].children, seg).Some?
    ensures paths[Lookup(nodes[m].children, seg).value] == paths[m] + [seg]
  {
    var c := Lookup(nodes[m].children, seg).value;
    var k :| 0 <= k < |nodes[m].children| && nodes[m].children[k] == (seg, c);
  }

  /** A walk from a module ends at the module whose path is the start's path and the walked segments. */
  lemma {:induction false} WalkPath(nodes: seq<Node>, paths: seq<seq<string>>, start: nat, q: seq<string>)
    requires Arena(nodes, paths) && start < |nodes|
    requires WalkFrom(nodes, start, q).Some?
    ensures WalkFrom(nodes, start, q).value < |nodes|
    ensures paths[WalkFrom(nodes, start, q).value] == paths[start] + q
    decreases |q|
  {
    if q == [] {
      assert paths[start] + q == paths[start];
    } else {
      var next := Lookup(nodes[start].children, q[0]).value;
      var k :| 0 <= k < |nodes[start].children| && nodes[start].children[k] == (q[0], next);
      assert paths[next] == paths[start] + [q[0]];
      WalkPath(nodes, paths, next, q[1..]);
      assert paths[start] + [q[0]] + q[1..] == paths[start] + q;
    }
  }

  /** A walk that gets through `p + q` gets through `p`. */
  lemma {:induction false} WalkPrefix(nodes: seq<Node>, start: nat, p: seq<string>, q: seq<string>)
    requires WalkFrom(nodes, start, p + q).Some?
    ensures WalkFrom(nodes, start, p).Some?
    decreases |p|
  {
    if p != [] {
      assert (p + q)[0] == p[0];
      assert (p + q)[1..] == p[1..] + q;
      var next := Lookup(nodes[start].children, p[0]).value;
      WalkPrefix(nodes, next, p[1..], q);
    }
  }

  /** The modules on the way to a module exist: every prefix of a module's path is some module's path. */
  lemma PrefixNode(nodes: seq<Node>, paths: seq<seq<string>>, i: nat, q: seq<string>)
    requires Arena(nodes, paths) && i < |nodes| && q <= paths[i]
    ensures exists j :: 0 <= j < |nodes| && paths[j] == q
  {
    var rest := paths[i][|q|..];
    assert q + rest == paths[i];
    WalkPrefix(nodes, 0, q, rest);
    WalkPath(nodes, paths, 0, q);
  }

  /** A module one segment below another is entered in that one's map under the segment. */
  lemma ChildOfPath(nodes: seq<Node>, paths: seq<seq<string>>, i: nat, j: nat, s: string)
    requires Arena(nodes, paths) && i < |nodes| && j < |nodes|
    requires paths[j] == paths[i] + [s]
    ensures Lookup(nodes[i].children, s) == Some(j)
  {
    WalkFromAppend(nodes, 0, paths[i], [s]);
    assert [s][1..] == [];
  }

  /** The names of a child map with every node forgotten. */
  function Untag(cs: ChildMap): (r: ChildMap)
    ensures |r| == |cs| && forall k :: 0 <= k < |cs| ==> r[k] == (cs[k].0, 0)
  {
    seq(|cs|, k requires 0 <= k < |cs| => (cs[k].0, 0))
  }

  /** Two sorted child maps with the same names list those names in the same order. */
  /** An untagged entry of `a` is an untagged entry of `b` when `b` has every key of `a`. */
  lemma UntagIn(a: ChildMap, b: ChildMap, e: (string, nat))
    requires Lookup(a, e.0).Some? ==> Lookup(b, e.0).Some?
    requires e in Untag(a)
    ensures e in Untag(b)
  {
    var ua, ub := Untag(a), Untag(b);
    var k :| 0 <= k < |ua| && ua[k] == e;
    assert a[k].0 == e.0;
    assert Lookup(a, e.0).Some?;
    var k' :| 0 <= k' < |b| && b[k'].0 == e.0;
    assert ub[k'] == e;
  }

  lemma KeysCanonical(a: ChildMap, b: ChildMap)
    requires SortedKeys(a) && SortedKeys(b)
    requires forall s :: Lookup(a, s).Some? <==> Lookup(b, s).Some?
    ensures |a| == |b| && forall k :: 0 <= k < |a| ==> a[k].0 == b[k].0
  {
    var ua, ub := Untag(a), Untag(b);
    forall e ensures e in ua <==> e in ub {
      if e in ua {
        UntagIn(a, b, e);
      }
      if e in ub {
        UntagIn(b, a, e);
      }
    }
    SortedCanonical(ua, ub);
    forall k | 0 <= k < |a| ensures a[k].0 == b[k].0 {
      assert ua[k] == ub[k];
    }
  }

  /** Distinct nodes have distinct paths. */
  lemma PathsDistinct(nodes: seq<Node>, paths: seq<seq<string>>, i: nat, j: nat)
    requires Arena(nodes, paths) && i < |nodes| && j < |nodes| && i != j
    ensures paths[i] != paths[j]
  {
  }

  class ModuleForest {
    /** The modules; node 0 holds the top-level map. */
    var nodes: seq<Node>
    /** The path from the top-level map to each node: the `module_path` it was created for. */
    ghost var paths: seq<seq<string>>
    /** The prelude of `default_module`, cloned into every module created. */
    const prelude: string

    ghost predicate Valid()
      reads this
    {
      Arena(nodes, paths)
    }

    /** `BTreeMap::new()` for the top-level map, and `Module::new(prelude)` as the default module. */
    constructor (prelude: string)
      ensures Valid()
      ensures this.prelude == prelude
      ensures nodes == [Node(prelude, [], [])] && paths == [[]]
    {
      this.prelude := prelude;
      nodes := [Node(prelude, [], [])];
      paths := [[]];
    }

    /**
     * get_submodule: follow `path` from the map of node `start`, creating each
     * missing module as a clone of the default module, and return the last one.
     * Existing modules keep everything they held; new ones start empty.
     */
    method GetSubmodule(start: nat, path: seq<string>) returns (m: nat)
      requires Valid() && start < |nodes|
      requires |path| > 0
      modifies this
      ensures Valid()
      ensures m < |nodes| && WalkFrom(nodes, start, path) == Some(m)
      ensures paths[m] == paths[start] + path
      ensures Keeps(old(nodes), nodes, prelude) && old(paths) <= paths
      ensures |nodes| <= old(|nodes|) + |path|
      ensures forall i :: old(|nodes|) <= i < |nodes| ==>
                |paths[start]| < |paths[i]| && paths[i] <= paths[start] + path
    {
      m := start;
      var k := 0;
      assert path[..0] == [];
      assert Keeps(nodes, nodes, prelude);
      while k < |path|
        invariant Walking(start, path, k, m, old(nodes), old(paths))
        decreases |path| - k
      {
        m := Advance(start, path, k, m, old(nodes), old(paths));
        k := k + 1;
      }
      assert path[..k] == path;
    }

    /**
     * The state of get_submodule's loop after `k` segments: the walk so far
     * ends at `m`, nothing held before is lost, and every module created lies
     * on the path walked so far.
     */
    ghost predicate Walking(start: nat, path: seq<string>, k: nat, m: nat, nodes0: seq<Node>, paths0: seq<seq<string>>)
      reads this
    {
      k <= |path| && Valid() && start < |nodes0| <= |nodes| && m < |nodes| && paths0 <= paths &&
      WalkFrom(nodes, start, path[..k]) == Some(m) && paths[m] == paths[start] + path[..k] &&
      Keeps(nodes0, nodes, prelude) && |nodes| <= |nodes0| + k &&
      forall i :: |nodes0| <= i < |nodes| ==> |paths[start]| < |paths[i]| && paths[i] <= paths[start] + path[..k]
    }

    /** The loop body of get_submodule: enter segment `k` of `path` from the module at `m`. */
    method Advance(start: nat, path: seq<string>, k: nat, m: nat, ghost nodes0: seq<Node>, ghost paths0: seq<seq<string>>)
      returns (next: nat)
      requires k < |path| && Walking(start, path, k, m, nodes0, paths0)
      modifies this
      ensures Walking(start, path, k + 1, next, nodes0, paths0)
    {
      ghost var before := nodes;
      ghost var pathsBefore := paths;
      next := Step(start, path[..k], m, path[k]);
      KeepsTransitive(nodes0, before, nodes, prelude);
      PrefixTransitive(paths0, pathsBefore, paths);
      assert paths[start] == pathsBefore[start];
      SliceSnoc(path, k);
      ExtendPath(paths[start], path, k);
      NewPathsOnWalk(|nodes0|, pathsBefore, paths, paths[start], path, k);
    }

    /** One round of the loop of get_submodule: from the module at `m`, reached by `prefix`, enter `seg`. */
    method Step(start: nat, prefix: seq<string>, m: nat, seg: string) returns (next: nat)
      requires Valid() && start < |nodes| && m < |nodes|
      requires WalkFrom(nodes, start, prefix) == Some(m)
      modifies this
      ensures Valid() && next < |nodes|
      ensures WalkFrom(nodes, start, prefix + [seg]) == Some(next)
      ensures paths[next] == old(paths[m]) + [seg]
      ensures Keeps(old(nodes), nodes, prelude) && old(paths) <= paths
      ensures |paths| <= old(|paths|) + 1
      ensures |paths| == old(|paths|) + 1 ==> paths[old(|paths|)] == old(paths[m]) + [seg]
      ensures old(Lookup(nodes[m].children, seg)).Some? ==> nodes == old(nodes) && paths == old(paths)
      ensures old(Lookup(nodes[m].children, seg)).None? ==>
                nodes == WithChild(old(nodes), m, seg, prelude) && paths == old(paths) + [old(paths[m]) + [seg]]
    {
      match Lookup(nodes[m].children, seg)
      case Some(c) =>
        next := c;
        ExistingChild(nodes, paths, m, seg);
        assert Keeps(nodes, nodes, prelude);
        assert [seg][1..] == [];
        assert WalkFrom(nodes, c, []) == Some(c);
        assert WalkFrom(nodes, m, [seg]) == Some(c);
        WalkFromAppend(nodes, start, prefix, [seg]);
      case None =>
        next := AddChild(m, seg);
        WalkGrows(old(nodes), nodes, start, prefix);
        WalkFromAppend(nodes, start, prefix, [seg]);
    }

    /** `entry(seg).or_insert_with(|| default_module.clone())` where `seg` is absent. */
    method AddChild(parent: nat, seg: string) returns (child: nat)
      requires Valid() && parent < |nodes|
      requires Lookup(nodes[parent].children, seg).None?
      modifies this
      ensures Valid()
      ensures child == old(|nodes|) && |nodes| == child + 1
      ensures nodes == WithChild(old(nodes), parent, seg, prelude)
      ensures nodes[child] == Node(prelude, [], [])
      ensures Grows(old(nodes), nodes)
      ensures forall i :: 0 <= i < child ==> nodes[i].items == old(nodes[i].items) && nodes[i].prelude == old(nodes[i].prelude)
      ensures paths == old(paths) + [old(paths[parent]) + [seg]]
      ensures WalkFrom(nodes, parent, [seg]) == Some(child)
    {
      child := |nodes|;
      WithChildGrows(nodes, parent, seg, prelude);
      WithChildArena(nodes, paths, parent, seg, prelude);
      nodes := WithChild(nodes, parent, seg, prelude);
      paths := paths + [paths[parent] + [seg]];
    }

    /** `module.items.push(item)` on the module at index `m`. */
    method PushItem(m: nat, item: string)
      requires Valid() && m < |nodes|
      modifies this
      ensures Valid()
      ensures nodes == old(nodes)[m := old(nodes[m]).(items := old(nodes[m].items) + [item])]
      ensures paths == old(paths)
    {
      nodes := nodes[m := nodes[m].(items := nodes[m].items + [item])];
      assert forall i :: 0 <= i < |nodes| ==> nodes[i].children == old(nodes[i].children);
      assert Grows(old(nodes), nodes);
      forall i | 0 <= i < |nodes|
        ensures WalkFrom(nodes, 0, paths[i]) == Some(i)
      {
        WalkGrows(old(nodes), nodes, 0, paths[i]);
      }
    }

    /** Module::to_tokens: the prelude, then each child module by ascending name, then the items. */
    method Render(i: nat) returns (text: string)
      requires WellFormed(nodes) && i < |nodes|
      ensures text == ModuleText(nodes, i)
      decreases |nodes| - i
    {
      text := nodes[i].prelude;
      var cs := nodes[i].children;
      var k := 0;
      while k < |cs|
        invariant 0 <= k <= |cs|
        invariant text + ChildrenText(nodes, i, cs[k..]) == nodes[i].prelude + ChildrenText(nodes, i, cs)
      {
        var sub := Render(cs[k].1);
        ChildrenTextStep(nodes, i, cs, k);
        text := text + ModEntry(cs[k].0, sub);
        k := k + 1;
      }
      var body := RenderItems(nodes[i].items);
      text := text + body;
    }
  }

  /** One child entry of the rendering: the suffix from entry k is entry k's text, then the rest. */
  lemma ChildrenTextStep(nodes: seq<Node>, parent: nat, cs: ChildMap, k: nat)
    requires WellFormed(nodes) && parent < |nodes| && k < |cs|
    requires forall j :: 0 <= j < |cs| ==> parent < cs[j].1 < |nodes|
    ensures ChildrenText(nodes, parent, cs[k..]) ==
            ModEntry(cs[k].0, ModuleText(nodes, cs[k].1)) + ChildrenText(nodes, parent, cs[k + 1..])
  {
    assert cs[k..][0] == cs[k] && cs[k..][1..] == cs[k + 1..];
  }

  /** The items' token streams joined in order. */
  method RenderItems(items: seq<string>) returns (body: string)
    ensures body == Concat(items)
  {
    var j := 0;
    body := "";
    while j < |items|
      invariant 0 <= j <= |items|
      invariant body == Concat(items[..j])
    {
      assert items[..j + 1][..j] == items[..j];
      body := body + items[j];
      j := j + 1;
    }
    assert items[..j] == items;
  }
}
