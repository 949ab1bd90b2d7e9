/**
 * Entity queries and the flattening of their constraint trees into the
 * C API's representation (spatialos-sdk/src/worker/query.rs).
 *
 * A C constraint refers to its children through pointers into one buffer
 * that the conversion allocates up front. Here a pointer is an index into
 * that buffer. The conversion is done in two passes: the first sizes the
 * buffer, the second fills it recursively. An And/Or node places its n
 * children in n consecutive slots and the children's own subtrees after
 * them. A Not node places its child in one slot. Slices are bounds-checked,
 * so a write past the end of the buffer aborts.
 */
module Query {
  import opened Wrappers
  import opened Scalars
  import opened WorkerCore

  /** QueryConstraint. The sphere's coordinates are only copied, so they stay opaque bits. */
  datatype QueryConstraint =
    | EntityIdConstraint(entityId: EntityId)
    | ComponentConstraint(componentId: u32)
    | SphereConstraint(x: F64, y: F64, z: F64, radius: F64)
    | And(children: seq<QueryConstraint>)
    | Or(children: seq<QueryConstraint>)
    | Not(negated: QueryConstraint)

  /** Worker_Constraint; `first` and `target` are buffer indices standing for the C pointers. */
  datatype WorkerConstraint =
    | WorkerEntityId(entityId: i64)
    | WorkerComponent(componentId: u32)
    | WorkerSphere(x: F64, y: F64, z: F64, radius: F64)
    | WorkerAnd(count: u32, first: nat)
    | WorkerOr(count: u32, first: nat)
    | WorkerNot(target: nat)

  /** The placeholder every buffer slot starts as: an entity-id constraint on id 0. */
  const Placeholder: WorkerConstraint := WorkerEntityId(0)

  const IndexOutOfBounds: string := "index out of bounds"

  /** `n as u32`: keeps the low 32 bits. */
  function Truncate32(n: nat): (r: u32)
    ensures n < 0x1_0000_0000 ==> r as int == n
  {
    (n % 0x1_0000_0000) as u32
  }

  // ---------------------------------------------------------------------------
  // Where the conversion puts things
  // ---------------------------------------------------------------------------

  /** How many buffer slots the subtree below a node occupies: every node except the root takes one. */
  function SlotCount(c: QueryConstraint): nat
    decreases c
  {
    match c
    case And(cs) => |cs| + SumSlots(cs)
    case Or(cs) => |cs| + SumSlots(cs)
    case Not(d) => 1 + SlotCount(d)
    case _ => 0
  }

  /** The slots taken by the subtrees below a list of siblings. */
  function SumSlots(cs: seq<QueryConstraint>): nat
    decreases cs
  {
    if |cs| == 0 then 0 else SumSlots(cs[..|cs| - 1]) + SlotCount(cs[|cs| - 1])
  }

  /** Where the subtree of child k of an And/Or at `at` starts: after all n children and the earlier subtrees. */
  function ChildAt(cs: seq<QueryConstraint>, at: nat, k: nat): nat
    requires k <= |cs|
  {
    at + |cs| + SumSlots(cs[..k])
  }

  /** The constraint the conversion returns for a node whose own slots start at `at`. */
  function Convert(c: QueryConstraint, at: nat): WorkerConstraint
  {
    match c
    case EntityIdConstraint(e) => WorkerEntityId(e.id)
    case ComponentConstraint(i) => WorkerComponent(i)
    case SphereConstraint(x, y, z, r) => WorkerSphere(x, y, z, r)
    case And(cs) => WorkerAnd(Truncate32(|cs|), at)
    case Or(cs) => WorkerOr(Truncate32(|cs|), at)
    case Not(_) => WorkerNot(at)
  }

  /** The contents of the slots below a node whose slots start at `at`. */
  function Layout(c: QueryConstraint, at: nat): (r: seq<WorkerConstraint>)
    ensures |r| == SlotCount(c)
    decreases c
  {
    match c
    case And(cs) => Heads(cs, at, |cs|) + Regions(cs, at + |cs|)
    case Or(cs) => Heads(cs, at, |cs|) + Regions(cs, at + |cs|)
    case Not(d) => [Convert(d, at + 1)] + Layout(d, at + 1)
    case _ => []
  }

  /**
   * The first n of the consecutive child slots of an And/Or: each child
   * converted at its own subtree's start.
   */
  function Heads(cs: seq<QueryConstraint>, at: nat, n: nat): (r: seq<WorkerConstraint>)
    requires n <= |cs|
    ensures |r| == n
  {
    if n == 0 then [] else Heads(cs, at, n - 1) + [Convert(cs[n - 1], ChildAt(cs, at, n - 1))]
  }

  /** The children's subtrees, one after another, from `base` on. */
  function Regions(cs: seq<QueryConstraint>, base: nat): (r: seq<WorkerConstraint>)
    ensures |r| == SumSlots(cs)
    decreases cs
  {
    if |cs| == 0 then []
    else Regions(cs[..|cs| - 1], base) + Layout(cs[|cs| - 1], base + SumSlots(cs[..|cs| - 1]))
  }

  /**
   * `s` sits in `buf` from index `at` on. An empty `s` says nothing, not even
   * that `at` is inside the buffer: a subtree without slots may start past
   * its end.
   */
  predicate Placed(buf: seq<WorkerConstraint>, at: nat, s: seq<WorkerConstraint>)
    decreases |s|
  {
    |s| == 0 || (at < |buf| && buf[at] == s[0] && Placed(buf, at + 1, s[1..]))
  }

  /**
   * Every slice access the conversion of `c` at `at` makes, into a buffer of
   * length `len`, is in bounds: the Not slot, the And/Or child slots, and the
   * And/Or pointer to its first slot (taken even when it has no children).
   */
  predicate Fits(c: QueryConstraint, at: nat, len: nat)
    decreases c
  {
    match c
    case And(cs) => at < len && ChildrenFit(cs, at, len)
    case Or(cs) => at < len && ChildrenFit(cs, at, len)
    case Not(d) => at < len && Fits(d, at + 1, len)
    case _ => true
  }

  /** The child slots and every child's subtree of an And/Or at `at` are in bounds. */
  predicate ChildrenFit(cs: seq<QueryConstraint>, at: nat, len: nat)
    decreases cs
  {
    (|cs| > 0 ==> at + |cs| <= len) && forall k {:trigger Fits(cs[k], ChildAt(cs, at, k), len)} :: 0 <= k < |cs| ==> Fits(cs[k], ChildAt(cs, at, k), len)
  }

  // ---------------------------------------------------------------------------
  // The C-side reading of a converted constraint (the tests' is_constraint_valid)
  // ---------------------------------------------------------------------------

  /**
   * A converted constraint `w`, read through the buffer `buf`, describes `c`:
   * same kind and payload, and for And/Or a count equal to the number of
   * children and children that are valid in turn, read from consecutive slots.
   */
  predicate Valid(c: QueryConstraint, w: WorkerConstraint, buf: seq<WorkerConstraint>)
    decreases c
  {
    match c
    case EntityIdConstraint(e) => w == WorkerEntityId(e.id)
    case ComponentConstraint(i) => w == WorkerComponent(i)
    case SphereConstraint(x, y, z, r) => w == WorkerSphere(x, y, z, r)
    case And(cs) => w.WorkerAnd? && w.count == Truncate32(|cs|) && ChildrenValid(cs, w.first, buf)
    case Or(cs) => w.WorkerOr? && w.count == Truncate32(|cs|) && ChildrenValid(cs, w.first, buf)
    case Not(d) => w.WorkerNot? && w.target < |buf| && Valid(d, buf[w.target], buf)
  }

  /** Children read from the consecutive slots starting at `first`. */
  predicate ChildrenValid(cs: seq<QueryConstraint>, first: nat, buf: seq<WorkerConstraint>)
    decreases cs
  {
    first + |cs| <= |buf| && forall k :: 0 <= k < |cs| ==> Valid(cs[k], buf[first + k], buf)
  }

  // ---------------------------------------------------------------------------
  // Facts about the layout
  // ---------------------------------------------------------------------------

  /** Taking one more child adds its slots and appends its subtree. */
  lemma {:induction false} SiblingStep(cs: seq<QueryConstraint>, k: nat, base: nat)
    requires k < |cs|
    ensures SumSlots(cs[..k + 1]) == SumSlots(cs[..k]) + SlotCount(cs[k])
    ensures Regions(cs[..k + 1], base) == Regions(cs[..k], base) + Layout(cs[k], base + SumSlots(cs[..k]))
  {
    assert cs[..k + 1][..k] == cs[..k];
  }

  /** Slot k of the child slots holds child k converted at its subtree's start. */
  lemma {:induction false} HeadAt(cs: seq<QueryConstraint>, at: nat, n: nat, k: nat)
    requires k < n <= |cs|
    ensures Heads(cs, at, n)[k] == Convert(cs[k], ChildAt(cs, at, k))
    decreases n
  {
    if k < n - 1 {
      HeadAt(cs, at, n - 1, k);
    }
  }

  /** The earlier siblings never take more slots than all of them. */
  lemma {:induction false} SumSlotsPrefix(cs: seq<QueryConstraint>, k: nat)
    requires k <= |cs|
    ensures SumSlots(cs[..k]) <= SumSlots(cs)
    decreases |cs|
  {
    if k < |cs| {
      assert cs[..|cs| - 1][..k] == cs[..k];
      SumSlotsPrefix(cs[..|cs| - 1], k);
    } else {
      assert cs[..k] == cs;
    }
  }

  /** One slot of a placed sequence. */
  lemma {:induction false} PlacedAt(buf: seq<WorkerConstraint>, at: nat, s: seq<WorkerConstraint>, j: nat)
    requires Placed(buf, at, s) && j < |s|
    ensures at + j < |buf| && buf[at + j] == s[j]
    decreases j
  {
    if j > 0 {
      PlacedAt(buf, at + 1, s[1..], j - 1);
    }
  }

  /** A sequence is placed when each of its slots is. */
  lemma {:induction false} PlacedEach(buf: seq<WorkerConstraint>, at: nat, s: seq<WorkerConstraint>)
    requires at + |s| <= |buf|
    requires forall i :: 0 <= i < |s| ==> buf[at + i] == s[i]
    ensures Placed(buf, at, s)
    decreases |s|
  {
    if |s| > 0 {
      forall i | 0 <= i < |s| - 1
        ensures buf[at + 1 + i] == s[1..][i]
      {
        assert buf[at + (1 + i)] == s[1 + i];
      }
      PlacedEach(buf, at + 1, s[1..]);
    }
  }

  /** Two sequences placed one after the other place their concatenation. */
  lemma {:induction false} PlacedAppend(buf: seq<WorkerConstraint>, at: nat, a: seq<WorkerConstraint>, b: seq<WorkerConstraint>)
    requires Placed(buf, at, a) && Placed(buf, at + |a|, b)
    ensures Placed(buf, at, a + b)
    decreases |a|
  {
    if |a| == 0 {
      assert a + b == b;
    } else {
      assert (a + b)[1..] == a[1..] + b;
      PlacedAppend(buf, at + 1, a[1..], b);
    }
  }

  /** A placed concatenation places each part. */
  lemma {:induction false} PlacedSplit(buf: seq<WorkerConstraint>, at: nat, a: seq<WorkerConstraint>, b: seq<WorkerConstraint>)
    requires Placed(buf, at, a + b)
    ensures Placed(buf, at, a) && Placed(buf, at + |a|, b)
    decreases |a|
  {
    if |a| == 0 {
      assert a + b == b;
    } else {
      assert (a + b)[1..] == a[1..] + b;
      PlacedSplit(buf, at + 1, a[1..], b);
    }
  }

  /** Writes outside the stretch a sequence occupies leave it in place. */
  lemma {:induction false} PlacedFrame(before: seq<WorkerConstraint>, after: seq<WorkerConstraint>, at: nat,
                                       s: seq<WorkerConstraint>)
    requires Placed(before, at, s) && |before| == |after|
    requires forall i :: at <= i < at + |s| && i < |after| ==> after[i] == before[i]
    ensures Placed(after, at, s)
    decreases |s|
  {
    if |s| > 0 {
      PlacedFrame(before, after, at + 1, s[1..]);
    }
  }

  /** Placed regions of a list of siblings place child k's subtree where ChildAt says. */
  lemma {:induction false} RegionsChild(buf: seq<WorkerConstraint>, cs: seq<QueryConstraint>, base: nat, k: nat)
    requires k < |cs| && Placed(buf, base, Regions(cs, base))
    ensures Placed(buf, base + SumSlots(cs[..k]), Layout(cs[k], base + SumSlots(cs[..k])))
    decreases |cs|
  {
    var init := cs[..|cs| - 1];
    PlacedSplit(buf, base, Regions(init, base), Layout(cs[|cs| - 1], base + SumSlots(init)));
    if k < |cs| - 1 {
      assert init[..k] == cs[..k];
      assert init[k] == cs[k];
      RegionsChild(buf, init, base, k);
    } else {
      assert cs[..k] == init;
    }
  }

  /**
   * A buffer that holds a node's layout at `at` makes the node's conversion
   * valid: reading the tree back through the buffer gives the same tree.
   */
  lemma {:induction false} LayoutValid(c: QueryConstraint, at: nat, buf: seq<WorkerConstraint>)
    requires Fits(c, at, |buf|)
    requires Placed(buf, at, Layout(c, at))
    ensures Valid(c, Convert(c, at), buf)
    decreases c, 2
  {
    match c
    case And(cs) => ChildrenLayoutValid(cs, at, buf);
    case Or(cs) => ChildrenLayoutValid(cs, at, buf);
    case Not(d) => NotLayoutValid(d, at, buf);
    case _ =>
  }

  /** The Not case of LayoutValid: its slot holds the child, whose own layout follows. */
  lemma {:induction false} NotLayoutValid(d: QueryConstraint, at: nat, buf: seq<WorkerConstraint>)
    requires at < |buf| && Fits(d, at + 1, |buf|)
    requires Placed(buf, at, [Convert(d, at + 1)] + Layout(d, at + 1))
    ensures Valid(Not(d), WorkerNot(at), buf)
    decreases Not(d), 1
  {
    PlacedSplit(buf, at, [Convert(d, at + 1)], Layout(d, at + 1));
    PlacedAt(buf, at, [Convert(d, at + 1)], 0);
    LayoutValid(d, at + 1, buf);
  }

  /** The children of an And/Or whose heads and subtrees are in place are valid. */
  lemma {:induction false} ChildrenLayoutValid(cs: seq<QueryConstraint>, at: nat, buf: seq<WorkerConstraint>)
    requires at < |buf| && ChildrenFit(cs, at, |buf|)
    requires Placed(buf, at, Heads(cs, at, |cs|) + Regions(cs, at + |cs|))
    ensures ChildrenValid(cs, at, buf)
    decreases cs, 1
  {
    PlacedSplit(buf, at, Heads(cs, at, |cs|), Regions(cs, at + |cs|));
    forall k | 0 <= k < |cs|
      ensures Valid(cs[k], buf[at + k], buf)
    {
      ChildHead(buf, cs, at, k);
      ChildRegion(buf, cs, at, k);
      ChildLayoutValid(cs, at, buf, k);
    }
  }

  /** Child k of an And/Or whose slot and subtree are in place is valid. */
  lemma {:induction false} ChildLayoutValid(cs: seq<QueryConstraint>, at: nat, buf: seq<WorkerConstraint>, k: nat)
    requires k < |cs| && at + k < |buf| && buf[at + k] == Convert(cs[k], ChildAt(cs, at, k))
    requires Fits(cs[k], ChildAt(cs, at, k), |buf|)
    requires Placed(buf, ChildAt(cs, at, k), Layout(cs[k], ChildAt(cs, at, k)))
    ensures Valid(cs[k], buf[at + k], buf)
    decreases cs, 0
  {
    LayoutValid(cs[k], ChildAt(cs, at, k), buf);
  }

  /** Placed child slots hold each child converted at its subtree's start. */
  lemma {:induction false} ChildHead(buf: seq<WorkerConstraint>, cs: seq<QueryConstraint>, at: nat, k: nat)
    requires k < |cs| && Placed(buf, at, Heads(cs, at, |cs|))
    ensures at + k < |buf| && buf[at + k] == Convert(cs[k], ChildAt(cs, at, k))
  {
    HeadAt(cs, at, |cs|, k);
    PlacedAt(buf, at, Heads(cs, at, |cs|), k);
  }

  /** Placed subtrees of an And/Or at `at` place child k's subtree at ChildAt. */
  lemma {:induction false} ChildRegion(buf: seq<WorkerConstraint>, cs: seq<QueryConstraint>, at: nat, k: nat)
    requires k < |cs| && Placed(buf, at + |cs|, Regions(cs, at + |cs|))
    ensures Placed(buf, ChildAt(cs, at, k), Layout(cs[k], ChildAt(cs, at, k)))
  {
    RegionsChild(buf, cs, at + |cs|, k);
  }

  /** With one slot to spare past the subtree, every access is in bounds. */
  lemma {:induction false} FitsWithRoom(c: QueryConstraint, at: nat, len: nat)
    requires at + SlotCount(c) < len
    ensures Fits(c, at, len)
    decreases c, 1
  {
    match c
    case And(cs) => ChildrenFitWithRoom(cs, at, len);
    case Or(cs) => ChildrenFitWithRoom(cs, at, len);
    case Not(d) => FitsWithRoom(d, at + 1, len);
    case _ =>
  }

  lemma {:induction false} ChildrenFitWithRoom(cs: seq<QueryConstraint>, at: nat, len: nat)
    requires at + |cs| + SumSlots(cs) < len
    ensures ChildrenFit(cs, at, len)
    decreases cs, 0
  {
    forall k | 0 <= k < |cs|
      ensures Fits(cs[k], ChildAt(cs, at, k), len)
    {
      SiblingStep(cs, k, 0);
      SumSlotsPrefix(cs, k + 1);
      FitsWithRoom(cs[k], ChildAt(cs, at, k), len);
    }
  }

  // ---------------------------------------------------------------------------
  // Buffer sizing
  // ---------------------------------------------------------------------------

  /** constraint_len_recursive as written: a Not counts 1 whatever is below it. */
  function ConstraintLen(c: QueryConstraint): (r: nat)
    ensures r >= 1
    ensures c.Not? ==> r == 1
    ensures r <= ConstraintLenFixed(c)
    decreases c
  {
    match c
    case And(cs) => SumLen(cs) + 1
    case Or(cs) => SumLen(cs) + 1
    case _ => 1
  }

  function SumLen(cs: seq<QueryConstraint>): (r: nat)
    ensures r >= |cs|
    ensures r <= SumLenFixed(cs)
    decreases cs
  {
    if |cs| == 0 then 0 else SumLen(cs[..|cs| - 1]) + ConstraintLen(cs[|cs| - 1])
  }

  /** The size evidently intended: a Not counts itself and its child's subtree. */
  function ConstraintLenFixed(c: QueryConstraint): nat
    decreases c
  {
    match c
    case And(cs) => SumLenFixed(cs) + 1
    case Or(cs) => SumLenFixed(cs) + 1
    case Not(d) => 1 + ConstraintLenFixed(d)
    case _ => 1
  }

  function SumLenFixed(cs: seq<QueryConstraint>): nat
    decreases cs
  {
    if |cs| == 0 then 0 else SumLenFixed(cs[..|cs| - 1]) + ConstraintLenFixed(cs[|cs| - 1])
  }

  /** The corrected size is the number of nodes in the tree: one slot per node below the root, plus one to spare. */
  lemma {:induction false} ConstraintLenFixedCounts(c: QueryConstraint)
    ensures ConstraintLenFixed(c) == SlotCount(c) + 1
    decreases c, 1
  {
    match c
    case And(cs) => SumLenFixedCounts(cs);
    case Or(cs) => SumLenFixedCounts(cs);
    case Not(d) => ConstraintLenFixedCounts(d);
    case _ =>
  }

  lemma {:induction false} SumLenFixedCounts(cs: seq<QueryConstraint>)
    ensures SumLenFixed(cs) == |cs| + SumSlots(cs)
    decreases cs, 0
  {
    if |cs| > 0 {
      SumLenFixedCounts(cs[..|cs| - 1]);
      ConstraintLenFixedCounts(cs[|cs| - 1]);
    }
  }

  /** No Not anywhere in the tree. */
  predicate NotFree(c: QueryConstraint)
    decreases c
  {
    match c
    case And(cs) => forall k :: 0 <= k < |cs| ==> NotFree(cs[k])
    case Or(cs) => forall k :: 0 <= k < |cs| ==> NotFree(cs[k])
    case Not(_) => false
    case _ => true
  }

  /** Without Not the sizing as written already agrees with the corrected one. */
  lemma {:induction false} ConstraintLenNotFree(c: QueryConstraint)
    requires NotFree(c)
    ensures ConstraintLen(c) == ConstraintLenFixed(c)
    decreases c, 1
  {
    match c
    case And(cs) => SumLenNotFree(cs);
    case Or(cs) => SumLenNotFree(cs);
    case _ =>
  }

  lemma {:induction false} SumLenNotFree(cs: seq<QueryConstraint>)
    requires forall k :: 0 <= k < |cs| ==> NotFree(cs[k])
    ensures SumLen(cs) == SumLenFixed(cs)
    decreases cs, 0
  {
    if |cs| > 0 {
      SumLenNotFree(cs[..|cs| - 1]);
      ConstraintLenNotFree(cs[|cs| - 1]);
    }
  }

  /**
   * The sizing as written is too small for two sibling Nots: the buffer has
   * 3 slots, the conversion needs 4, and the second Not's child is written
   * at index 3.
   */
  lemma {:induction false} SiblingNotsOverflow()
    ensures var c := And([Not(ComponentConstraint(1)), Not(ComponentConstraint(2))]);
            ConstraintLen(c) == 3 && SlotCount(c) == 4 && !Fits(c, 0, ConstraintLen(c)) &&
            Fits(c, 0, ConstraintLenFixed(c))
  {
    var a, b := Not(ComponentConstraint(1)), Not(ComponentConstraint(2));
    var c := And([a, b]);
    var cs := [a, b];
    assert cs[..1] == [a] && cs[..0] == [];
    assert SumLen(cs) == SumLen([a]) + 1;
    assert SumSlots(cs) == SumSlots([a]) + 1;
    assert ChildAt(cs, 0, 1) == 3;
    assert !Fits(b, 3, 3);
    ConstraintLenFixedCounts(c);
    FitsWithRoom(c, 0, ConstraintLenFixed(c));
  }

  // ---------------------------------------------------------------------------
  // The conversion
  // ---------------------------------------------------------------------------

  /**
   * to_worker_sdk_recursive: converts `c`, writing the slots below it from
   * `at` on. It returns the node's own constraint and the number of slots
   * filled, or aborts on the first out-of-bounds slice access. On success
   * the slots hold exactly the node's layout and nothing else changed.
   */
  method ToWorkerSdkRecursive(c: QueryConstraint, data: array<WorkerConstraint>, at: nat)
    returns (r: Outcome<(WorkerConstraint, nat)>)
    modifies data
    ensures r.Returns? <==> Fits(c, at, data.Length)
    ensures r.Returns? ==> r.value == (Convert(c, at), SlotCount(c)) && Placed(data[..], at, Layout(c, at))
    ensures r.Returns? ==> forall i :: 0 <= i < data.Length && !(at <= i < at + SlotCount(c)) ==> data[i] == old(data[i])
    decreases c, 2
  {
    match c
    case EntityIdConstraint(e) =>
      return Returns((WorkerEntityId(e.id), 0));
    case ComponentConstraint(i) =>
      return Returns((WorkerComponent(i), 0));
    case SphereConstraint(x, y, z, radius) =>
      return Returns((WorkerSphere(x, y, z, radius), 0));
    case And(cs) =>
      var filled := FillChildren(cs, data, at);
      if filled.Panics? {
        return Panics(filled.message);
      }
      if at >= data.Length {
        return Panics(IndexOutOfBounds);
      }
      return Returns((WorkerAnd(Truncate32(|cs|), at), filled.value));
    case Or(cs) =>
      var filled := FillChildren(cs, data, at);
      if filled.Panics? {
        return Panics(filled.message);
      }
      if at >= data.Length {
        return Panics(IndexOutOfBounds);
      }
      return Returns((WorkerOr(Truncate32(|cs|), at), filled.value));
    case Not(d) =>
      var inner := ToWorkerSdkRecursive(d, data, at + 1);
      if inner.Panics? {
        return Panics(inner.message);
      }
      if at >= data.Length {
        return Panics(IndexOutOfBounds);
      }
      ghost var mid := data[..];
      data[at] := inner.value.0;
      assert data[..] == mid[at := inner.value.0];
      PlacedFrame(mid, data[..], at + 1, Layout(d, at + 1));
      NotPlaced(data[..], at, d);
      return Returns((WorkerNot(at), 1 + inner.value.1));
  }

  /** The Not's slot followed by its child's subtree is the Not's layout. */
  lemma {:induction false} NotPlaced(buf: seq<WorkerConstraint>, at: nat, d: QueryConstraint)
    requires at < |buf| && buf[at] == Convert(d, at + 1)
    requires Placed(buf, at + 1, Layout(d, at + 1))
    ensures Placed(buf, at, Layout(Not(d), at))
  {
    assert Placed(buf, at, [Convert(d, at + 1)]);
    PlacedAppend(buf, at, [Convert(d, at + 1)], Layout(d, at + 1));
  }

  /**
   * The loop shared by And and Or: converts each child with its subtree
   * placed after the earlier ones, then stores the child in the next of the
   * n consecutive slots. Returns the slots filled: n plus the subtrees.
   */
  method FillChildren(cs: seq<QueryConstraint>, data: array<WorkerConstraint>, at: nat)
    returns (r: Outcome<nat>)
    modifies data
    ensures r.Returns? <==> ChildrenFit(cs, at, data.Length)
    ensures r.Returns? ==> r.value == |cs| + SumSlots(cs) && Placed(data[..], at, Heads(cs, at, |cs|) + Regions(cs, at + |cs|))
    ensures r.Returns? ==>
              forall i :: 0 <= i < data.Length && !(at <= i < at + |cs| + SumSlots(cs)) ==> data[i] == old(data[i])
    decreases cs, 1
  {
    var filled := |cs|;
    var next := at;
    var k := 0;
    while k < |cs|
      invariant k <= |cs| && next == at + k && (k > 0 ==> next <= data.Length)
      invariant filled == |cs| + SumSlots(cs[..k])
      invariant forall j {:trigger Fits(cs[j], ChildAt(cs, at, j), data.Length)} :: 0 <= j < k ==> Fits(cs[j], ChildAt(cs, at, j), data.Length)
      invariant Placed(data[..], at, Heads(cs, at, k))
      invariant Placed(data[..], at + |cs|, Regions(cs[..k], at + |cs|))
      invariant forall i :: 0 <= i < data.Length && !(at <= i < at + k) && !(at + |cs| <= i < at + filled) ==>
                  data[i] == old(data[i])
      decreases |cs| - k
    {
      var step := FillOne(cs, data, at, k, next, filled);
      if step.Panics? {
        return Panics(step.message);
      }
      filled := step.value;
      next, k := next + 1, k + 1;
    }
    FillDone(cs, at, data[..], k, filled);
    return Returns(filled);
  }

  /** After the last child: the children fit, and heads then regions are in place. */
  lemma FillDone(cs: seq<QueryConstraint>, at: nat, buf: seq<WorkerConstraint>, k: nat, filled: nat)
    requires k == |cs| && (k > 0 ==> at + k <= |buf|)
    requires filled == |cs| + SumSlots(cs[..k])
    requires forall j {:trigger Fits(cs[j], ChildAt(cs, at, j), |buf|)} :: 0 <= j < k ==> Fits(cs[j], ChildAt(cs, at, j), |buf|)
    requires Placed(buf, at, Heads(cs, at, k))
    requires Placed(buf, at + |cs|, Regions(cs[..k], at + |cs|))
    ensures ChildrenFit(cs, at, |buf|)
    ensures filled == |cs| + SumSlots(cs) && Placed(buf, at, Heads(cs, at, |cs|) + Regions(cs, at + |cs|))
  {
    assert cs[..k] == cs;
    PlacedAppend(buf, at, Heads(cs, at, |cs|), Regions(cs, at + |cs|));
  }

  /**
   * One turn of that loop, for child k: converts it at the end of the slots
   * filled so far, then stores it in slot `next`. Returns the new count of
   * slots filled.
   */
  method FillOne(cs: seq<QueryConstraint>, data: array<WorkerConstraint>, at: nat, k: nat, next: nat, filled: nat)
    returns (r: Outcome<nat>)
    requires k < |cs| && next == at + k && filled == |cs| + SumSlots(cs[..k])
    requires Placed(data[..], at, Heads(cs, at, k))
    requires Placed(data[..], at + |cs|, Regions(cs[..k], at + |cs|))
    modifies data
    ensures r.Panics? ==> !ChildrenFit(cs, at, data.Length)
    ensures r.Returns? ==>
              r.value == filled + SlotCount(cs[k]) == |cs| + SumSlots(cs[..k + 1]) && next < data.Length &&
              Fits(cs[k], ChildAt(cs, at, k), data.Length)
    ensures r.Returns? ==>
              Placed(data[..], at, Heads(cs, at, k + 1)) &&
              Placed(data[..], at + |cs|, Regions(cs[..k + 1], at + |cs|))
    ensures r.Returns? ==>
              forall i :: 0 <= i < data.Length && i != next && !(at + filled <= i < r.value + at) ==>
                data[i] == old(data[i])
    decreases cs, 0
  {
    ghost var before := data[..];
    var child := ToWorkerSdkRecursive(cs[k], data, at + filled);
    if child.Panics? {
      ChildPanics(cs, at, k, data.Length);
      return Panics(child.message);
    }
    ghost var mid := data[..];
    if next >= data.Length {
      SlotPanics(cs, at, k, data.Length);
      return Panics(IndexOutOfBounds);
    }
    data[next] := child.value.0;
    GrowStep(before, mid, data[..], cs, at, k, child.value.0);
    return Returns(filled + child.value.1);
  }

  /**
   * The effect of one turn of the loop on the buffer: heads and subtrees
   * both grow by child k, and nothing outside slot k and child k's subtree
   * changes.
   */
  lemma GrowStep(before: seq<WorkerConstraint>, mid: seq<WorkerConstraint>, after: seq<WorkerConstraint>, cs: seq<QueryConstraint>, at: nat, k: nat,
                 v: WorkerConstraint)
    requires k < |cs| && at + k < |mid| && |before| == |mid|
    requires after == mid[at + k := v]
    requires v == Convert(cs[k], ChildAt(cs, at, k))
    requires Placed(before, at, Heads(cs, at, k))
    requires Placed(before, at + |cs|, Regions(cs[..k], at + |cs|))
    requires Placed(mid, ChildAt(cs, at, k), Layout(cs[k], ChildAt(cs, at, k)))
    requires forall i :: 0 <= i < |mid| && !(ChildAt(cs, at, k) <= i < ChildAt(cs, at, k) + SlotCount(cs[k])) ==>
               mid[i] == before[i]
    ensures Placed(after, at, Heads(cs, at, k + 1))
    ensures Placed(after, at + |cs|, Regions(cs[..k + 1], at + |cs|))
    ensures SumSlots(cs[..k + 1]) == SumSlots(cs[..k]) + SlotCount(cs[k])
    ensures forall i :: 0 <= i < |mid| && i != at + k && !(ChildAt(cs, at, k) <= i < ChildAt(cs, at, k) + SlotCount(cs[k])) ==>
              after[i] == before[i]
  {
    HeadsGrow(before, mid, cs, at, k, v);
    RegionsGrow(before, mid, cs, at, k, v);
  }

  /** A child whose conversion aborts makes the whole list not fit. */
  lemma {:induction false} ChildPanics(cs: seq<QueryConstraint>, at: nat, k: nat, len: nat)
    requires k < |cs| && !Fits(cs[k], ChildAt(cs, at, k), len)
    ensures !ChildrenFit(cs, at, len)
  {
  }

  /** A child slot past the end makes the whole list not fit. */
  lemma {:induction false} SlotPanics(cs: seq<QueryConstraint>, at: nat, k: nat, len: nat)
    requires k < |cs| && at + k >= len
    ensures !ChildrenFit(cs, at, len)
  {
  }

  /** Storing child k in its slot extends the placed child slots by one. */
  lemma {:induction false} HeadsGrow(before: seq<WorkerConstraint>, mid: seq<WorkerConstraint>, cs: seq<QueryConstraint>, at: nat, k: nat,
                  v: WorkerConstraint)
    requires k < |cs| && at + k < |mid| && |before| == |mid|
    requires v == Convert(cs[k], ChildAt(cs, at, k))
    requires Placed(before, at, Heads(cs, at, k))
    requires forall i :: 0 <= i < |mid| && !(ChildAt(cs, at, k) <= i < ChildAt(cs, at, k) + SlotCount(cs[k])) ==>
               mid[i] == before[i]
    ensures Placed(mid[at + k := v], at, Heads(cs, at, k + 1))
  {
    var after := mid[at + k := v];
    var p := ChildAt(cs, at, k);
    Untouched(before, mid, at + k, v, p, p + SlotCount(cs[k]), at, k);
    PlacedFrame(before, after, at, Heads(cs, at, k));
    assert Placed(after, at + k, [v]);
    PlacedAppend(after, at, Heads(cs, at, k), [v]);
  }

  /** Converting child k, then storing it, extends the placed subtrees by child k's subtree. */
  lemma {:induction false} RegionsGrow(before: seq<WorkerConstraint>, mid: seq<WorkerConstraint>, cs: seq<QueryConstraint>, at: nat, k: nat,
                    v: WorkerConstraint)
    requires k < |cs| && at + k < |mid| && |before| == |mid|
    requires Placed(before, at + |cs|, Regions(cs[..k], at + |cs|))
    requires Placed(mid, ChildAt(cs, at, k), Layout(cs[k], ChildAt(cs, at, k)))
    requires forall i :: 0 <= i < |mid| && !(ChildAt(cs, at, k) <= i < ChildAt(cs, at, k) + SlotCount(cs[k])) ==>
               mid[i] == before[i]
    ensures Placed(mid[at + k := v], at + |cs|, Regions(cs[..k + 1], at + |cs|))
    ensures SumSlots(cs[..k + 1]) == SumSlots(cs[..k]) + SlotCount(cs[k])
  {
    RegionsSnoc(cs, at, k);
    EarlierRegionsKept(before, mid, cs, at, k, v);
    SubtreeKept(mid, cs, at, k, v);
    PlacedAppend(mid[at + k := v], at + |cs|, Regions(cs[..k], at + |cs|), Layout(cs[k], ChildAt(cs, at, k)));
  }

  /** SiblingStep for the subtrees of an And/Or at `at`: child k's subtree starts at ChildAt. */
  lemma {:induction false} RegionsSnoc(cs: seq<QueryConstraint>, at: nat, k: nat)
    requires k < |cs|
    ensures SumSlots(cs[..k + 1]) == SumSlots(cs[..k]) + SlotCount(cs[k])
    ensures Regions(cs[..k + 1], at + |cs|) == Regions(cs[..k], at + |cs|) + Layout(cs[k], ChildAt(cs, at, k))
    ensures at + |cs| + |Regions(cs[..k], at + |cs|)| == ChildAt(cs, at, k)
  {
    SiblingStep(cs, k, at + |cs|);
  }

  /** The earlier siblings' subtrees survive child k's conversion and the store into slot k. */
  lemma {:induction false} EarlierRegionsKept(before: seq<WorkerConstraint>, mid: seq<WorkerConstraint>,
                                              cs: seq<QueryConstraint>, at: nat, k: nat, v: WorkerConstraint)
    requires k < |cs| && at + k < |mid| && |before| == |mid|
    requires Placed(before, at + |cs|, Regions(cs[..k], at + |cs|))
    requires forall i :: 0 <= i < |mid| && !(ChildAt(cs, at, k) <= i < ChildAt(cs, at, k) + SlotCount(cs[k])) ==>
               mid[i] == before[i]
    ensures Placed(mid[at + k := v], at + |cs|, Regions(cs[..k], at + |cs|))
  {
    var p := ChildAt(cs, at, k);
    var s0 := Regions(cs[..k], at + |cs|);
    Untouched(before, mid, at + k, v, p, p + SlotCount(cs[k]), at + |cs|, |s0|);
    PlacedFrame(before, mid[at + k := v], at + |cs|, s0);
  }

  /** Child k's subtree survives the store into slot k. */
  lemma {:induction false} SubtreeKept(mid: seq<WorkerConstraint>, cs: seq<QueryConstraint>, at: nat, k: nat,
                                       v: WorkerConstraint)
    requires k < |cs| && at + k < |mid|
    requires Placed(mid, ChildAt(cs, at, k), Layout(cs[k], ChildAt(cs, at, k)))
    ensures Placed(mid[at + k := v], ChildAt(cs, at, k), Layout(cs[k], ChildAt(cs, at, k)))
  {
    var p := ChildAt(cs, at, k);
    Untouched(mid, mid, at + k, v, 0, 0, p, |Layout(cs[k], p)|);
    PlacedFrame(mid, mid[at + k := v], p, Layout(cs[k], p));
  }

  /**
   * A stretch away from both the one-slot write at `j` and the stretch
   * [lo, hi) that the earlier writes touched still holds what it held before.
   */
  lemma {:induction false} Untouched(before: seq<WorkerConstraint>, mid: seq<WorkerConstraint>, j: nat, v: WorkerConstraint,
                  lo: int, hi: int, from: nat, n: nat)
    requires |before| == |mid| && j < |mid|
    requires forall i :: 0 <= i < |mid| && !(lo <= i < hi) ==> mid[i] == before[i]
    requires (j < from || from + n <= j) && (from + n <= lo || hi <= from)
    ensures forall i :: from <= i < from + n && i < |mid[j := v]| ==> mid[j := v][i] == before[i]
  {
  }

  /**
   * QueryConstraint::to_worker_sdk as written: sizes the buffer with
   * ConstraintLen, fills it with placeholders and converts into it. It
   * returns exactly when every access fits that buffer, and then the result
   * reads back as the original tree.
   */
  method ToWorkerSdk(c: QueryConstraint) returns (r: Outcome<(WorkerConstraint, array<WorkerConstraint>)>)
    ensures r.Returns? <==> Fits(c, 0, ConstraintLen(c))
    ensures r.Returns? ==> r.value.1.Length == ConstraintLen(c) && Valid(c, r.value.0, r.value.1[..])
  {
    var data := new WorkerConstraint[ConstraintLen(c)](_ => Placeholder);
    var converted := ToWorkerSdkRecursive(c, data, 0);
    if converted.Panics? {
      return Panics(converted.message);
    }
    LayoutValid(c, 0, data[..]);
    return Returns((converted.value.0, data));
  }

  /**
   * The conversion with the corrected sizing: it never aborts, and the
   * result always reads back as the original tree.
   */
  method ToWorkerSdkFixed(c: QueryConstraint) returns (w: WorkerConstraint, data: array<WorkerConstraint>)
    ensures data.Length == ConstraintLenFixed(c)
    ensures Valid(c, w, data[..])
  {
    data := new WorkerConstraint[ConstraintLenFixed(c)](_ => Placeholder);
    ConstraintLenFixedCounts(c);
    FitsWithRoom(c, 0, data.Length);
    var converted := ToWorkerSdkRecursive(c, data, 0);
    assert converted.Returns?;
    LayoutValid(c, 0, data[..]);
    w := converted.value.0;
  }

  // ---------------------------------------------------------------------------
  // Entity queries
  // ---------------------------------------------------------------------------

  /** ResultType: a count of matching entities, or a snapshot of the listed components. */
  datatype ResultType = Count | Snapshot(componentIds: seq<u32>)

  /** ResultType::to_u8: Count is 1, Snapshot is 2. */
  function ResultTypeToU8(t: ResultType): (r: u8)
    ensures r == 1 <==> t.Count?
    ensures r == 2 <==> t.Snapshot?
  {
    match t
    case Count => 1
    case Snapshot(_) => 2
  }

  datatype EntityQuery = EntityQuery(constraint: QueryConstraint, resultType: ResultType)

  /** Worker_EntityQuery; a null id pointer is None. */
  datatype WorkerEntityQuery = WorkerEntityQuery(
    constraint: WorkerConstraint,
    resultType: u8,
    snapshotComponentIdCount: u32,
    snapshotComponentIds: Option<seq<u32>>)

  /** WrappedEntityQuery: the C query together with the buffer its constraint points into. */
  datatype WrappedEntityQuery = WrappedEntityQuery(
    query: WorkerEntityQuery,
    ids: Option<seq<u32>>,
    underlyingConstraintData: array<WorkerConstraint>)

  /**
   * EntityQuery::to_worker_sdk (with the corrected sizing): the result type's
   * number, no ids for a count, the ids and their count for a snapshot, and
   * a constraint that reads back as the query's.
   */
  method EntityQueryToWorkerSdk(q: EntityQuery) returns (r: WrappedEntityQuery)
    ensures r.query.resultType == ResultTypeToU8(q.resultType)
    ensures q.resultType.Count? ==>
              r.query.snapshotComponentIdCount == 0 && r.query.snapshotComponentIds.None? && r.ids.None?
    ensures q.resultType.Snapshot? ==>
              r.query.snapshotComponentIdCount == Truncate32(|q.resultType.componentIds|) &&
              r.query.snapshotComponentIds == Some(q.resultType.componentIds) &&
              r.ids == Some(q.resultType.componentIds)
    ensures Valid(q.constraint, r.query.constraint, r.underlyingConstraintData[..])
  {
    var constraint, data := ToWorkerSdkFixed(q.constraint);
    match q.resultType
    case Count =>
      r := WrappedEntityQuery(WorkerEntityQuery(constraint, ResultTypeToU8(q.resultType), 0, None), None, data);
    case Snapshot(ids) =>
      r := WrappedEntityQuery(
        WorkerEntityQuery(constraint, ResultTypeToU8(q.resultType), Truncate32(|ids|), Some(ids)), Some(ids), data);
  }
}
