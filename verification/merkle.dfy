/** The incremental note commitment tree and the padded tree it stands for. */
module Merkle {
  import opened Types

  // ---------------------------------------------------------------- reference

  function Pow2(d: nat): (p: nat)
    ensures p > 0
  {
    if d == 0 then 1 else 2 * Pow2(d - 1)
  }

  /** The root of the complete binary tree with exactly these leaves. */
  function PerfectRoot(h: HashPair, d: nat, leaves: seq<Hash32>): Hash32
    requires |leaves| == Pow2(d)
    decreases d
  {
    if d == 0 then leaves[0]
    else h(PerfectRoot(h, d - 1, leaves[..Pow2(d - 1)]), PerfectRoot(h, d - 1, leaves[Pow2(d - 1)..]))
  }

  function Copies(e: Hash32, n: nat): (c: seq<Hash32>)
    ensures |c| == n
    ensures forall i :: 0 <= i < n ==> c[i] == e
  {
    seq(n, _ => e)
  }

  /** `s` followed by as many copies of `e` as are needed to reach length `n`. */
  function Pad(s: seq<Hash32>, e: Hash32, n: nat): (p: seq<Hash32>)
    requires |s| <= n
    ensures |p| == n
  {
    s + Copies(e, n - |s|)
  }

  /** The depth-d tree over `leaves`, padded on the right with zero leaves. */
  function NaiveRoot(h: HashPair, d: nat, leaves: seq<Hash32>): Hash32
    requires |leaves| <= Pow2(d)
  {
    PerfectRoot(h, d, Pad(leaves, ZERO, Pow2(d)))
  }

  // ------------------------------------------------------------- incremental

  datatype Tree = Tree(frontier: seq<Option<Hash32>>, size: nat)

  function EmptyTree(depth: nat): Tree {
    Tree(seq(depth, _ => None), 0)
  }

  /** The subtree of depth d that holds only zero leaves. */
  function EmptyRoot(h: HashPair, d: nat): Hash32 {
    if d == 0 then ZERO else var node := EmptyRoot(h, d - 1); h(node, node)
  }

  /** Binary-counter carry of a finished node into the frontier. */
  function Carry(h: HashPair, f: seq<Option<Hash32>>, node: Hash32): (g: seq<Option<Hash32>>)
    ensures |g| == |f|
  {
    if |f| == 0 then []
    else if f[0].Some? then [None] + Carry(h, f[1..], h(f[0].value, node))
    else [Some(node)] + f[1..]
  }

  function Append(h: HashPair, t: Tree, c: Hash32): Tree {
    Tree(Carry(h, t.frontier, c), t.size + 1)
  }

  function AppendAll(h: HashPair, t: Tree, cs: seq<Hash32>): (r: Tree)
    ensures r.size == t.size + |cs|
    ensures |r.frontier| == |t.frontier|
    decreases |cs|
  {
    if cs == [] then t else AppendAll(h, Append(h, t, cs[0]), cs[1..])
  }

  /** Walk up from level i: `n` is the size shifted right by i. */
  function RootFrom(h: HashPair, f: seq<Option<Hash32>>, n: nat, i: nat, current: Hash32): Hash32
    decreases |f|
  {
    if |f| == 0 then current
    else
      var sibling := if f[0].Some? then f[0].value else EmptyRoot(h, i);
      RootFrom(h, f[1..], n / 2, i + 1, if n % 2 == 1 then h(sibling, current) else h(current, sibling))
  }

  function Root(h: HashPair, t: Tree): Hash32 {
    RootFrom(h, t.frontier, t.size, 0, EmptyRoot(h, 0))
  }

  // ------------------------------------------------- what the frontier holds

  /** The parents of the complete pairs of `s`. */
  function Up(h: HashPair, s: seq<Hash32>): (u: seq<Hash32>)
    ensures |u| == |s| / 2
  {
    seq(|s| / 2, i requires 0 <= i < |s| / 2 => h(s[2 * i], s[2 * i + 1]))
  }

  /** Level by level, the frontier keeps the one node that has no partner yet. */
  ghost predicate Holds(h: HashPair, f: seq<Option<Hash32>>, s: seq<Hash32>)
    decreases |f|
  {
    |f| > 0 ==>
      && f[0] == (if |s| % 2 == 1 then Some(s[|s| - 1]) else None)
      && Holds(h, f[1..], Up(h, s))
  }

  ghost predicate Represents(h: HashPair, t: Tree, leaves: seq<Hash32>) {
    t.size == |leaves| && Holds(h, t.frontier, leaves)
  }

  lemma {:induction false} CarryHolds(h: HashPair, f: seq<Option<Hash32>>, s: seq<Hash32>, node: Hash32)
    requires Holds(h, f, s)
    ensures Holds(h, Carry(h, f, node), s + [node])
    decreases |f|
  {
    if |f| > 0 {
      var t := s + [node];
      if |s| % 2 == 1 {
        var up := h(s[|s| - 1], node);
        assert Up(h, t) == Up(h, s) + [up];
        CarryHolds(h, f[1..], Up(h, s), up);
      } else {
        assert Up(h, t) == Up(h, s);
      }
    }
  }

  lemma {:induction false} EmptyHolds(h: HashPair, depth: nat)
    ensures Holds(h, EmptyTree(depth).frontier, [])
  {
    if depth > 0 {
      assert EmptyTree(depth).frontier[1..] == EmptyTree(depth - 1).frontier;
      assert Up(h, []) == [];
      EmptyHolds(h, depth - 1);
    }
  }

  /** After any list of appends the frontier represents exactly that list. */
  lemma {:induction false} AppendAllRepresents(h: HashPair, t: Tree, leaves: seq<Hash32>, cs: seq<Hash32>)
    requires Represents(h, t, leaves)
    ensures Represents(h, AppendAll(h, t, cs), leaves + cs)
    decreases |cs|
  {
    if cs == [] {
      assert leaves + cs == leaves;
    } else {
      CarryHolds(h, t.frontier, leaves, cs[0]);
      AppendAllRepresents(h, Append(h, t, cs[0]), leaves + [cs[0]], cs[1..]);
      assert leaves + [cs[0]] + cs[1..] == leaves + cs;
    }
  }

  // -------------------------------------------------------- perfect subtrees

  lemma UpSlice(h: HashPair, s: seq<Hash32>, a: nat, b: nat)
    requires a <= b && 2 * b <= |s|
    ensures Up(h, s[2 * a..2 * b]) == Up(h, s)[a..b]
  {
  }

  lemma UpDrop(h: HashPair, s: seq<Hash32>, a: nat)
    requires 2 * a <= |s|
    ensures Up(h, s[2 * a..]) == Up(h, s)[a..]
  {
  }

  lemma UpHalves(h: HashPair, s: seq<Hash32>, m: nat)
    requires |s| == 4 * m
    ensures Up(h, s[..2 * m]) == Up(h, s)[..m]
    ensures Up(h, s[2 * m..]) == Up(h, s)[m..]
  {
  }

  /** One level up from a padded level with an unfinished node. */
  lemma UpPad(h: HashPair, s: seq<Hash32>, current: Hash32, e: Hash32, n: nat)
    requires |s| < 2 * n
    ensures |Up(h, s)| < n
    ensures var parent := if |s| % 2 == 1 then h(s[|s| - 1], current) else h(current, e);
            Up(h, Pad(s + [current], e, 2 * n)) == Pad(Up(h, s) + [parent], h(e, e), n)
  {
  }

  /** Folding the lowest level first gives the same root. */
  lemma {:induction false} PerfectUp(h: HashPair, d: nat, s: seq<Hash32>)
    requires d > 0 && |s| == Pow2(d)
    ensures PerfectRoot(h, d, s) == PerfectRoot(h, d - 1, Up(h, s))
  {
    var m := Pow2(d - 1);
    if d > 1 {
      PerfectUp(h, d - 1, s[..m]);
      PerfectUp(h, d - 1, s[m..]);
      UpHalves(h, s, Pow2(d - 2));
    }
  }

  /** n >> i */
  function Shr(n: nat, i: nat): nat {
    if i == 0 then n else Shr(n / 2, i - 1)
  }

  lemma {:induction false} ShrStep(n: nat, i: nat)
    ensures Shr(n, i + 1) == Shr(n, i) / 2
  {
    if i > 0 {
      ShrStep(n / 2, i - 1);
    }
  }

  /** n with its bits 0..i cleared: where the subtree of bit i begins. */
  function SubtreeStart(n: nat, i: nat): (b: nat)
    ensures b <= n
    ensures Shr(n, i) % 2 == 1 ==> b + Pow2(i) <= n
  {
    if i == 0 then n - n % 2 else 2 * SubtreeStart(n / 2, i - 1)
  }

  /** Block i of `s`: the 2^i nodes that bit i of |s| counts. */
  function BitBlock(s: seq<Hash32>, i: nat): (block: seq<Hash32>)
    requires Shr(|s|, i) % 2 == 1
    ensures |block| == Pow2(i)
  {
    var b := SubtreeStart(|s|, i);
    s[b..b + Pow2(i)]
  }

  lemma BitBlockUp(h: HashPair, s: seq<Hash32>, i: nat)
    requires i > 0 && Shr(|s|, i) % 2 == 1
    ensures PerfectRoot(h, i, BitBlock(s, i)) == PerfectRoot(h, i - 1, BitBlock(Up(h, s), i - 1))
  {
    hide Up, PerfectRoot;
    var m := Pow2(i - 1);
    var b := SubtreeStart(|s| / 2, i - 1);
    assert BitBlock(s, i) == s[2 * b..2 * (b + m)];
    assert BitBlock(Up(h, s), i - 1) == Up(h, s)[b..b + m];
    assert Up(h, BitBlock(s, i)) == BitBlock(Up(h, s), i - 1) by {
      UpSlice(h, s, b, b + m);
    }
    PerfectUp(h, i, BitBlock(s, i));
  }

  /** The frontier told by the bits of the size: entry i is present exactly when
      bit i is set, and it is the root of the perfect subtree over its 2^i leaves. */
  lemma {:induction false} FrontierByBits(h: HashPair, f: seq<Option<Hash32>>, s: seq<Hash32>, i: nat)
    requires Holds(h, f, s) && i < |f|
    ensures f[i].Some? <==> Shr(|s|, i) % 2 == 1
    ensures f[i].Some? ==> f[i].value == PerfectRoot(h, i, BitBlock(s, i))
    decreases i
  {
    if i > 0 {
      FrontierByBits(h, f[1..], Up(h, s), i - 1);
      if f[i].Some? {
        BitBlockUp(h, s, i);
      }
    }
  }

  // ------------------------------------------------------------- refinement

  /** The root above a level: fold it up d times. */
  function LevelRoot(h: HashPair, d: nat, s: seq<Hash32>): Hash32
    requires |s| == Pow2(d)
    decreases d
  {
    if d == 0 then s[0] else LevelRoot(h, d - 1, Up(h, s))
  }

  lemma {:induction false} LevelRootIsPerfect(h: HashPair, d: nat, s: seq<Hash32>)
    requires |s| == Pow2(d)
    ensures LevelRoot(h, d, s) == PerfectRoot(h, d, s)
    decreases d
  {
    if d > 0 {
      LevelRootIsPerfect(h, d - 1, Up(h, s));
      PerfectUp(h, d, s);
    }
  }

  /** The walk of `Root` folds the unfinished node into the padded level. */
  lemma {:induction false} RootFromIsPadded(h: HashPair, f: seq<Option<Hash32>>, s: seq<Hash32>, i: nat,
          current: Hash32)
    requires Holds(h, f, s) && |s| < Pow2(|f|)
    ensures RootFrom(h, f, |s|, i, current)
         == LevelRoot(h, |f|, Pad(s + [current], EmptyRoot(h, i), Pow2(|f|)))
    decreases |f|
  {
    hide Up;
    if |f| > 0 {
      var parent := if |s| % 2 == 1 then h(s[|s| - 1], current) else h(current, EmptyRoot(h, i));
      UpPad(h, s, current, EmptyRoot(h, i), Pow2(|f| - 1));
      RootFromIsPadded(h, f[1..], Up(h, s), i + 1, parent);
    }
  }

  /** Below capacity the incremental root is the root of the padded tree. */
  lemma RootIsNaive(h: HashPair, t: Tree, leaves: seq<Hash32>)
    requires Represents(h, t, leaves) && |leaves| < Pow2(|t.frontier|)
    ensures Root(h, t) == NaiveRoot(h, |t.frontier|, leaves)
  {
    RootFromIsPadded(h, t.frontier, leaves, 0, ZERO);
    var padded := Pad(leaves, ZERO, Pow2(|t.frontier|));
    assert Pad(leaves + [ZERO], ZERO, Pow2(|t.frontier|)) == padded;
    LevelRootIsPerfect(h, |t.frontier|, padded);
  }

  /** The leaves appended since the size last was a multiple of 2^d. */
  function Recent(leaves: seq<Hash32>, d: nat): (r: seq<Hash32>)
    ensures |r| < Pow2(d)
    decreases |leaves|
  {
    if |leaves| < Pow2(d) then leaves else Recent(leaves[Pow2(d)..], d)
  }

  lemma HalfStep(n: nat, m: nat)
    requires 2 * m <= n
    ensures (n - 2 * m) / 2 == n / 2 - m && (n - 2 * m) % 2 == n % 2
  {
  }

  lemma {:induction false} DropHolds(h: HashPair, f: seq<Option<Hash32>>, s: seq<Hash32>)
    requires Holds(h, f, s) && |s| >= Pow2(|f|)
    ensures Holds(h, f, s[Pow2(|f|)..])
    decreases |f|
  {
    hide Up;
    if |f| > 0 {
      var m := Pow2(|f| - 1);
      var rest := s[2 * m..];
      HalfStep(|s|, m);
      DropHolds(h, f[1..], Up(h, s));
      UpDrop(h, s, m);
      assert |s| % 2 == 1 ==> rest[|rest| - 1] == s[|s| - 1];
    }
  }

  lemma {:induction false} DropRoot(h: HashPair, f: seq<Option<Hash32>>, n: nat, i: nat, current: Hash32)
    requires n >= Pow2(|f|)
    ensures RootFrom(h, f, n, i, current) == RootFrom(h, f, n - Pow2(|f|), i, current)
    decreases |f|
  {
    if |f| > 0 {
      var m := Pow2(|f| - 1);
      HalfStep(n, m);
      var sibling := if f[0].Some? then f[0].value else EmptyRoot(h, i);
      var parent := if n % 2 == 1 then h(sibling, current) else h(current, sibling);
      DropRoot(h, f[1..], n / 2, i + 1, parent);
    }
  }

  /** With no bound on the number of appends: the carry out of the top level is
      dropped, so the root covers only the leaves since the last multiple of 2^d. */
  lemma {:induction false} RootIsNaiveOfRecent(h: HashPair, t: Tree, leaves: seq<Hash32>)
    requires Represents(h, t, leaves)
    ensures Root(h, t) == NaiveRoot(h, |t.frontier|, Recent(leaves, |t.frontier|))
    decreases |leaves|
  {
    var full := Pow2(|t.frontier|);
    if |leaves| < full {
      RootIsNaive(h, t, leaves);
    } else {
      DropHolds(h, t.frontier, leaves);
      DropRoot(h, t.frontier, |leaves|, 0, ZERO);
      RootIsNaiveOfRecent(h, Tree(t.frontier, t.size - full), leaves[full..]);
    }
  }

  /** Main theorem: append any list of leaves, one by one, to the empty tree. */
  lemma IncrementalRoot(h: HashPair, depth: nat, leaves: seq<Hash32>)
    ensures var t := AppendAll(h, EmptyTree(depth), leaves);
            && Root(h, t) == NaiveRoot(h, depth, Recent(leaves, depth))
            && (|leaves| < Pow2(depth) ==> Root(h, t) == NaiveRoot(h, depth, leaves))
  {
    EmptyHolds(h, depth);
    AppendAllRepresents(h, EmptyTree(depth), [], leaves);
    assert [] + leaves == leaves;
    RootIsNaiveOfRecent(h, AppendAll(h, EmptyTree(depth), leaves), leaves);
  }

  // ----------------------------------------------------------------- binding

  /** Somewhere at the same place in both trees, two different pairs of children
      have the same parent. */
  ghost predicate NodeCollision(h: HashPair, d: nat, a: seq<Hash32>, b: seq<Hash32>)
    requires |a| == |b| == Pow2(d)
    decreases d
  {
    d > 0 &&
    var m := Pow2(d - 1);
    var (al, ar) := (PerfectRoot(h, d - 1, a[..m]), PerfectRoot(h, d - 1, a[m..]));
    var (bl, br) := (PerfectRoot(h, d - 1, b[..m]), PerfectRoot(h, d - 1, b[m..]));
    || ((al, ar) != (bl, br) && h(al, ar) == h(bl, br))
    || NodeCollision(h, d - 1, a[..m], b[..m])
    || NodeCollision(h, d - 1, a[m..], b[m..])
  }

  lemma {:induction false} PerfectRootBinds(h: HashPair, d: nat, a: seq<Hash32>, b: seq<Hash32>)
    requires |a| == |b| == Pow2(d)
    requires PerfectRoot(h, d, a) == PerfectRoot(h, d, b)
    ensures a == b || NodeCollision(h, d, a, b)
    decreases d
  {
    if d > 0 {
      var m := Pow2(d - 1);
      if !NodeCollision(h, d, a, b) {
        PerfectRootBinds(h, d - 1, a[..m], b[..m]);
        PerfectRootBinds(h, d - 1, a[m..], b[m..]);
        assert a == a[..m] + a[m..] && b == b[..m] + b[m..];
      }
    }
  }

  /** Root binding. Unless the two trees exhibit a hash collision, two leaf lists
      below capacity have the same root exactly when their zero-padded leaf
      sequences agree; lists of equal size then are equal. */
  lemma RootBinding(h: HashPair, t: Tree, u: Tree, a: seq<Hash32>, b: seq<Hash32>)
    requires Represents(h, t, a) && Represents(h, u, b)
    requires |t.frontier| == |u.frontier|
    requires |a| < Pow2(|t.frontier|) && |b| < Pow2(|t.frontier|)
    requires var n := Pow2(|t.frontier|); !NodeCollision(h, |t.frontier|, Pad(a, ZERO, n), Pad(b, ZERO, n))
    ensures var n := Pow2(|t.frontier|); Root(h, t) == Root(h, u) <==> Pad(a, ZERO, n) == Pad(b, ZERO, n)
    ensures Root(h, t) == Root(h, u) && |a| == |b| ==> a == b
  {
    var d := |t.frontier|;
    var n := Pow2(d);
    RootIsNaive(h, t, a);
    RootIsNaive(h, u, b);
    if Root(h, t) == Root(h, u) {
      PerfectRootBinds(h, d, Pad(a, ZERO, n), Pad(b, ZERO, n));
      if |a| == |b| {
        assert a == Pad(a, ZERO, n)[..|a|] && b == Pad(b, ZERO, n)[..|b|];
      }
    }
  }

  /** The size is not bound by the root: one trailing zero leaf more, same root. */
  lemma TrailingZeroKeepsRoot(h: HashPair, t: Tree, leaves: seq<Hash32>)
    requires Represents(h, t, leaves) && |leaves| + 1 < Pow2(|t.frontier|)
    ensures Root(h, Append(h, t, ZERO)) == Root(h, t)
  {
    CarryHolds(h, t.frontier, leaves, ZERO);
    RootIsNaive(h, t, leaves);
    RootIsNaive(h, Append(h, t, ZERO), leaves + [ZERO]);
    assert Pad(leaves + [ZERO], ZERO, Pow2(|t.frontier|)) == Pad(leaves, ZERO, Pow2(|t.frontier|));
  }

  /** Appending the last leaf the tree has room for: the incremental root becomes
      the root of the empty tree. Without a hash collision that is the right root
      exactly when every leaf is zero. */
  lemma FullTreeRoot(h: HashPair, t: Tree, leaves: seq<Hash32>)
    requires Represents(h, t, leaves) && |leaves| == Pow2(|t.frontier|)
    requires !NodeCollision(h, |t.frontier|, leaves, Pad([], ZERO, |leaves|))
    ensures Root(h, t) == NaiveRoot(h, |t.frontier|, [])
    ensures Root(h, t) == NaiveRoot(h, |t.frontier|, leaves) <==> forall i :: 0 <= i < |leaves| ==> leaves[i] == ZERO
  {
    var d := |t.frontier|;
    RootIsNaiveOfRecent(h, t, leaves);
    assert leaves[Pow2(d)..] == [];
    assert Recent([], d) == [];
    assert Recent(leaves, d) == [];
    assert Pad(leaves, ZERO, |leaves|) == leaves;
    var zeros := Pad([], ZERO, |leaves|);
    if Root(h, t) == NaiveRoot(h, d, leaves) {
      PerfectRootBinds(h, d, leaves, zeros);
    }
    if forall i :: 0 <= i < |leaves| ==> leaves[i] == ZERO {
      assert leaves == zeros;
    }
  }

  // --------------------------------------------------------------- the class

  /** What one turn of the carry loop does at level i. */
  lemma CarryMoves(h: HashPair, f: seq<Option<Hash32>>, i: nat, current: Hash32)
    requires i < |f| && f[i].Some?
    ensures var g := f[i := None];
            f[..i] + Carry(h, f[i..], current) == g[..i + 1] + Carry(h, g[i + 1..], h(f[i].value, current))
  {
  }

  lemma CarryStops(h: HashPair, f: seq<Option<Hash32>>, i: nat, current: Hash32)
    requires i < |f| && f[i].None?
    ensures f[..i] + Carry(h, f[i..], current) == f[i := Some(current)]
  {
  }

  /** What the tree keeps on disk: the frontier, the size and the leaves. */
  datatype TreeDb = TreeDb(frontier: Option<seq<Option<Hash32>>>, size: Option<nat>, commitments: map<nat, Hash32>)

  /** What `Open` finds on disk. */
  function Loaded(depth: nat, db: TreeDb): Tree {
    Tree(if db.frontier.Some? then db.frontier.value else EmptyTree(depth).frontier,
         if db.size.Some? then db.size.value else 0)
  }

  class NoteCommitmentTree {
    const h: HashPair
    const depth: nat
    var frontier: seq<Option<Hash32>>
    var size: nat
    var db: TreeDb

    /** The tree in memory. */
    function State(): Tree
      reads this
    {
      Tree(frontier, size)
    }

    /** Memory and disk agree. */
    ghost predicate Valid()
      reads this
    {
      |frontier| == depth && Loaded(depth, db) == State()
    }

    constructor Open(h: HashPair, depth: nat, db: TreeDb)
      requires |Loaded(depth, db).frontier| == depth
      ensures Valid() && this.h == h && this.depth == depth && this.db == db
      ensures State() == Loaded(depth, db)
    {
      this.h := h;
      this.depth := depth;
      this.db := db;
      this.frontier := if db.frontier.Some? then db.frontier.value else seq(depth, _ => None);
      this.size := if db.size.Some? then db.size.value else 0;
    }

    method AppendLeaf(c: Hash32) returns (leafIndex: nat)
      requires Valid()
      modifies this
      ensures Valid()
      ensures leafIndex == old(size)
      ensures State() == Append(h, old(State()), c)
      ensures db.commitments == old(db.commitments)[leafIndex := c]
    {
      leafIndex := size;
      db := db.(commitments := db.commitments[leafIndex := c]);
      var current := c;
      ghost var before := frontier;
      var i := 0;
      while i < depth
        invariant i <= depth == |frontier|
        invariant frontier[..i] + Carry(h, frontier[i..], current) == Carry(h, before, c)
        invariant size == leafIndex && db == old(db).(commitments := old(db.commitments)[leafIndex := c])
      {
        if frontier[i].Some? {
          CarryMoves(h, frontier, i, current);
          current := h(frontier[i].value, current);
          frontier := frontier[i := None];
        } else {
          CarryStops(h, frontier, i, current);
          frontier := frontier[i := Some(current)];
          break;
        }
        i := i + 1;
      }
      assert frontier == Carry(h, before, c) by {
        if i == depth { assert frontier[..i] == frontier; }
      }
      size := size + 1;
      db := db.(frontier := Some(frontier), size := Some(size));
    }

    method EmptySubtree(levels: nat) returns (node: Hash32)
      ensures node == EmptyRoot(h, levels)
    {
      node := ZERO;
      for i := 0 to levels
        invariant node == EmptyRoot(h, i)
      {
        node := h(node, node);
      }
    }

    method CurrentRoot() returns (r: Hash32)
      requires Valid()
      ensures r == Root(h, State())
    {
      var current := EmptySubtree(0);
      for i := 0 to depth
        invariant RootFrom(h, frontier[i..], Shr(size, i), i, current) == Root(h, State())
      {
        var empty := EmptySubtree(i);
        var sibling := if frontier[i].Some? then frontier[i].value else empty;
        ShrStep(size, i);
        assert frontier[i..][1..] == frontier[i + 1..];
        if Shr(size, i) % 2 == 1 {
          current := h(sibling, current);
        } else {
          current := h(current, sibling);
        }
      }
      r := current;
    }
  }
}
