/** Assembly of the pattern forest (ProcessEvent.log.py, `EventPattern.__init__`,
    `addSubPattern`, `findSubPatternWithId`): a definition with an empty parent
    id becomes a new root; any other is appended to the child list of the first
    node, in preorder, whose id is its parent id, and is lost when there is no
    such node yet. */
module Assembly {
  import opened Wrappers
  import opened Tree

  /** `q` is visited strictly before `p` by a preorder walk of the forest:
      an earlier sibling's subtree, or an ancestor. */
  predicate Before(q: Path, p: Path)
    decreases |q|
  {
    |q| > 0 && |p| > 0 &&
    (q[0] < p[0] || (q[0] == p[0] && |p| > 1 && (|q| == 1 || Before(q[1..], p[1..]))))
  }

  /** Preorder is a total order on paths. */
  lemma {:induction false} BeforeTotal(p: Path, q: Path)
    requires |p| > 0 && |q| > 0 && p != q
    ensures Before(p, q) || Before(q, p)
    decreases |p|
  {
    assert |p| == 1 && |q| == 1 && p[0] == q[0] ==> p == q;
    if p[0] == q[0] && |p| > 1 && |q| > 1 {
      assert p[1..] != q[1..] by {
        assert p == [p[0]] + p[1..] && q == [q[0]] + q[1..];
      }
      BeforeTotal(p[1..], q[1..]);
    }
  }

  /** No path is visited before itself. */
  lemma {:induction false} BeforeIrreflexive(p: Path)
    ensures !Before(p, p)
    decreases |p|
  {
    if |p| > 1 {
      BeforeIrreflexive(p[1..]);
    }
  }

  /** Two paths are never each visited before the other. */
  lemma {:induction false} BeforeAsymmetric(p: Path, q: Path)
    requires Before(p, q)
    ensures !Before(q, p)
    decreases |p|
  {
    if p[0] == q[0] && |p| > 1 {
      BeforeAsymmetric(p[1..], q[1..]);
    }
  }

  /** Visiting order is transitive. */
  lemma {:induction false} BeforeTransitive(p: Path, q: Path, r: Path)
    requires Before(p, q) && Before(q, r)
    ensures Before(p, r)
    decreases |p|
  {
    if p[0] == q[0] && q[0] == r[0] && |p| > 1 {
      BeforeTransitive(p[1..], q[1..], r[1..]);
    }
  }

  /** No node visited before `p` has id `id`. */
  ghost predicate NoneNamedBefore(ns: seq<Node>, p: Path, id: string) {
    forall q :: ValidPath(ns, q) && Before(q, p) ==> At(ns, q).name != id
  }

  /** No node of the forest has id `id`. */
  ghost predicate NoneNamed(ns: seq<Node>, id: string) {
    forall q :: ValidPath(ns, q) ==> At(ns, q).name != id
  }

  /** `p` is the first node in preorder whose id is `id`. */
  ghost predicate FirstNamed(ns: seq<Node>, p: Path, id: string) {
    ValidPath(ns, p) && At(ns, p).name == id && NoneNamedBefore(ns, p, id)
  }

  /** The path `p` read in a forest with `k` more nodes in front of it. */
  function Shift(p: Path, k: nat): (r: Path)
    requires |p| > 0
    ensures |r| == |p| && r[0] == p[0] + k && r[1..] == p[1..]
  {
    [p[0] + k] + p[1..]
  }

  function ShiftOption(o: Option<Path>, k: nat): Option<Path>
    requires o.Some? ==> |o.value| > 0
  {
    match o
    case None => None
    case Some(p) => Some(Shift(p, k))
  }

  lemma ShiftValid(ns: seq<Node>, p: Path)
    requires |ns| > 0 && ValidPath(ns[1..], p)
    ensures ValidPath(ns, Shift(p, 1)) && At(ns, Shift(p, 1)) == At(ns[1..], p)
  {
    assert ns[p[0] + 1] == ns[1..][p[0]];
  }

  lemma UnshiftValid(ns: seq<Node>, q: Path)
    requires ValidPath(ns, q) && q[0] > 0
    ensures ValidPath(ns[1..], [q[0] - 1] + q[1..])
    ensures At(ns[1..], [q[0] - 1] + q[1..]) == At(ns, q)
    ensures Shift([q[0] - 1] + q[1..], 1) == q
  {
    assert ns[q[0]] == ns[1..][q[0] - 1];
  }

  /** The loop of `findSubPatternWithId` over a list of siblings: each sibling
      is tested before its own descendants, which come before the next
      sibling. The result is the path of the node found. */
  function FindIn(ns: seq<Node>, id: string): (r: Option<Path>)
    ensures r.Some? ==> ValidPath(ns, r.value) && At(ns, r.value).name == id
    decreases ForestSize(ns), 1
  {
    if ns == [] then None
    else if ns[0].name == id then Some([0])
    else match FindSubPatternWithId(ns[0], id)
      case Some(p) =>
        assert ([0] + p)[1..] == p;
        Some([0] + p)
      case None =>
        match FindIn(ns[1..], id)
        case Some(p) =>
          ShiftValid(ns, p);
          Some(Shift(p, 1))
        case None => None
  }

  /** `findSubPatternWithId(pattern, id)`: the first descendant of `n` (not `n`
      itself) whose id is `id`, as a path into `n.subPatterns`. */
  function FindSubPatternWithId(n: Node, id: string): (r: Option<Path>)
    ensures r.Some? ==> ValidPath(n.subPatterns, r.value) && At(n.subPatterns, r.value).name == id
    decreases Size(n), 0
  {
    FindIn(n.subPatterns, id)
  }

  /** The search finds the first node in preorder with the id, and fails only
      when no node has it. */
  lemma {:induction false} FindInFirst(ns: seq<Node>, id: string)
    ensures FindIn(ns, id).Some? ==> FirstNamed(ns, FindIn(ns, id).value, id)
    ensures FindIn(ns, id).None? ==> NoneNamed(ns, id)
    decreases ForestSize(ns)
  {
    if ns != [] && ns[0].name != id {
      var sub := ns[0].subPatterns;
      assert ForestSize(ns) == Size(ns[0]) + ForestSize(ns[1..]);
      assert Size(ns[0]) == 1 + ForestSize(sub);
      FindInFirst(sub, id);
      match FindIn(sub, id)
      case Some(p) =>
        assert FindSubPatternWithId(ns[0], id) == Some(p);
        assert FindIn(ns, id) == Some([0] + p);
        FirstInFirstTree(ns, id, p);
      case None =>
        assert FindSubPatternWithId(ns[0], id).None?;
        FindInFirst(ns[1..], id);
        match FindIn(ns[1..], id)
        case Some(p) =>
          assert FindIn(ns, id) == Some(Shift(p, 1));
          FirstInLaterTree(ns, id, p);
        case None =>
          assert FindIn(ns, id).None?;
          NoneInAnyTree(ns, id);
    }
  }

  lemma FirstInFirstTree(ns: seq<Node>, id: string, p: Path)
    requires |ns| > 0 && ns[0].name != id && FirstNamed(ns[0].subPatterns, p, id)
    ensures FirstNamed(ns, [0] + p, id)
  {
    assert ([0] + p)[1..] == p;
    forall q | ValidPath(ns, q) && Before(q, [0] + p)
      ensures At(ns, q).name != id
    {
      if |q| > 1 {
        assert Before(q[1..], p);
      }
    }
  }

  lemma FirstInLaterTree(ns: seq<Node>, id: string, p: Path)
    requires |ns| > 0 && ns[0].name != id && NoneNamed(ns[0].subPatterns, id)
    requires FirstNamed(ns[1..], p, id)
    ensures FirstNamed(ns, Shift(p, 1), id)
  {
    ShiftValid(ns, p);
    forall q | ValidPath(ns, q) && Before(q, Shift(p, 1))
      ensures At(ns, q).name != id
    {
      if q[0] > 0 {
        UnshiftValid(ns, q);
        var q' := [q[0] - 1] + q[1..];
        assert q'[1..] == q[1..];
        assert Before(q', p);
      } else if |q| > 1 {
        assert ValidPath(ns[0].subPatterns, q[1..]);
      }
    }
  }

  lemma NoneInAnyTree(ns: seq<Node>, id: string)
    requires |ns| > 0 && ns[0].name != id && NoneNamed(ns[0].subPatterns, id)
    requires NoneNamed(ns[1..], id)
    ensures NoneNamed(ns, id)
  {
    forall q | ValidPath(ns, q)
      ensures At(ns, q).name != id
    {
      if q[0] > 0 {
        UnshiftValid(ns, q);
      } else if |q| > 1 {
        assert ValidPath(ns[0].subPatterns, q[1..]);
      }
    }
  }

  /** Two nodes that are both the first with an id are the same node. */
  lemma FirstNamedUnique(ns: seq<Node>, id: string, p: Path, p': Path)
    requires FirstNamed(ns, p, id) && FirstNamed(ns, p', id)
    ensures p == p'
  {
    if p != p' {
      BeforeTotal(p, p');
    }
  }

  /** `p.subPatterns.append(pattern)` on a node value. */
  function Adopt(n: Node, c: Node): Node {
    n.(subPatterns := n.subPatterns + [c])
  }

  /** What `addSubPattern(c)` does to the forest `ns`. */
  function Attach(ns: seq<Node>, parentId: string, c: Node): seq<Node> {
    match FindIn(ns, parentId)
    case None => ns
    case Some(p) => ReplaceAt(ns, p, Adopt(At(ns, p), c))
  }

  /** A pattern whose parent is the first node `p` in preorder with id
      `parentId` becomes the last child of `p`; every other node keeps its own
      fields and the length of its child list. */
  lemma AttachAtFirst(ns: seq<Node>, c: Node, p: Path)
    requires FirstNamed(ns, p, c.parentId)
    ensures FindIn(ns, c.parentId) == Some(p)
    ensures var r := Attach(ns, c.parentId, c);
            var k := |At(ns, p).subPatterns|;
            && ValidPath(r, p) && At(r, p).subPatterns == At(ns, p).subPatterns + [c]
            && ValidPath(r, p + [k]) && At(r, p + [k]) == c
            && forall q :: ValidPath(ns, q) && q != p ==> ValidPath(r, q) && SameOwn(At(r, q), At(ns, q))
  {
    FindInFirst(ns, c.parentId);
    FirstNamedUnique(ns, c.parentId, p, FindIn(ns, c.parentId).value);
    var m := Adopt(At(ns, p), c);
    var r := Attach(ns, c.parentId, c);
    ReplaceAtHit(ns, p, m);
    assert m.subPatterns[..|At(ns, p).subPatterns|] == At(ns, p).subPatterns;
    forall q | ValidPath(ns, q) && q != p
      ensures ValidPath(r, q) && SameOwn(At(r, q), At(ns, q))
    {
      ReplaceAtOthers(ns, p, m, q);
    }
    ChildPath(r, p, |At(ns, p).subPatterns|);
  }

  /** A path one step below a node. */
  lemma {:induction false} ChildPath(ns: seq<Node>, p: Path, k: nat)
    requires ValidPath(ns, p) && k < |At(ns, p).subPatterns|
    ensures ValidPath(ns, p + [k]) && At(ns, p + [k]) == At(ns, p).subPatterns[k]
    decreases p
  {
    if |p| > 1 {
      ChildPath(ns[p[0]].subPatterns, p[1..], k);
      assert (p + [k])[1..] == p[1..] + [k];
    }
  }

  /** Attaching adds exactly the new subtree when the parent id is found and
      nothing at all otherwise: a forward reference is lost. */
  lemma AttachSize(ns: seq<Node>, parentId: string, c: Node)
    ensures ForestSize(Attach(ns, parentId, c)) == ForestSize(ns) + (if NoneNamed(ns, parentId) then 0 else Size(c))
    ensures NoneNamed(ns, parentId) ==> Attach(ns, parentId, c) == ns
  {
    FindInFirst(ns, parentId);
    match FindIn(ns, parentId)
    case None =>
    case Some(p) =>
      var n := At(ns, p);
      ReplaceAtTotal(ns, p, Adopt(n, c), Nodes);
      ForestTotalAppend(n.subPatterns, c, Nodes);
  }

  /** Attaching a well-formed pattern keeps the forest well formed. */
  lemma AttachWellFormed(ns: seq<Node>, parentId: string, c: Node)
    requires AllWellFormed(ns) && WellFormed(c)
    ensures AllWellFormed(Attach(ns, parentId, c))
  {
    match FindIn(ns, parentId)
    case None =>
    case Some(p) =>
      AtWellFormed(ns, p);
      var m := Adopt(At(ns, p), c);
      assert forall i :: 0 <= i < |m.subPatterns| ==> WellFormed(m.subPatterns[i]) by {
        assert forall i :: 0 <= i < |m.subPatterns| - 1 ==> m.subPatterns[i] == At(ns, p).subPatterns[i];
      }
      ReplaceAtWellFormed(ns, p, m);
  }

  /** The search over the siblings from `i` on: a sibling that neither has
      the id nor contains it is skipped. */
  lemma FindInSkip(ns: seq<Node>, id: string, i: nat)
    requires i < |ns| && ns[i].name != id && FindSubPatternWithId(ns[i], id).None?
    ensures FindIn(ns[i..], id) == ShiftOption(FindIn(ns[i + 1..], id), 1)
  {
    assert ns[i..][0] == ns[i] && ns[i..][1..] == ns[i + 1..];
  }

  lemma ShiftZero(o: Option<Path>)
    requires o.Some? ==> |o.value| > 0
    ensures ShiftOption(o, 0) == o
  {
    if o.Some? {
      var p := o.value;
      assert p == [p[0]] + p[1..];
    }
  }

  lemma ShiftShift(o: Option<Path>, j: nat, k: nat)
    requires o.Some? ==> |o.value| > 0
    ensures ShiftOption(ShiftOption(o, j), k) == ShiftOption(o, j + k)
  {
    if o.Some? {
      var p := o.value;
      assert Shift(Shift(p, j), k) == Shift(p, j + k);
    }
  }

  /** One row of the pattern file: `Name`, compiled `MessageRegEx`, `parent`. */
  datatype Definition = Definition(name: string, regex: Regex, parent: string)

  /** `EventPattern(name, regEx, parent)`: a root when `parent` is empty,
      otherwise attached under its parent if that exists already. */
  function Define(ns: seq<Node>, d: Definition): seq<Node> {
    var n := NewNode(d.name, d.regex, d.parent);
    if |d.parent| > 0 then Attach(ns, d.parent, n) else ns + [n]
  }

  /** What one definition does to the forest: with an empty parent it is the
      new last root; otherwise it becomes the last child of the first node in
      preorder with its parent id, every other node keeping its own fields and
      the length of its child list; with no such node the forest is unchanged.
      The forest grows by at most one node. */
  lemma DefineEffect(ns: seq<Node>, d: Definition)
    ensures var n := NewNode(d.name, d.regex, d.parent);
            var r := Define(ns, d);
            && (d.parent == [] ==> r == ns + [n])
            && (d.parent != [] && NoneNamed(ns, d.parent) ==> r == ns)
            && (forall p :: d.parent != [] && FirstNamed(ns, p, d.parent) ==>
                  && ValidPath(r, p) && At(r, p).subPatterns == At(ns, p).subPatterns + [n]
                  && forall q :: ValidPath(ns, q) && q != p ==> ValidPath(r, q) && SameOwn(At(r, q), At(ns, q)))
            && ForestSize(ns) <= ForestSize(r) <= ForestSize(ns) + 1
  {
    var n := NewNode(d.name, d.regex, d.parent);
    assert n.subPatterns == [] && Size(n) == Weight(Nodes, n) + ForestTotal([], Nodes);
    if d.parent == [] {
      ForestTotalAppend(ns, n, Nodes);
    } else {
      AttachSize(ns, d.parent, n);
      forall p | FirstNamed(ns, p, d.parent)
        ensures var r := Define(ns, d);
                && ValidPath(r, p) && At(r, p).subPatterns == At(ns, p).subPatterns + [n]
                && forall q :: ValidPath(ns, q) && q != p ==> ValidPath(r, q) && SameOwn(At(r, q), At(ns, q))
      {
        AttachAtFirst(ns, n, p);
      }
    }
  }

  /** `loadCsvFile`: the definitions applied in file order. */
  function Build(ns: seq<Node>, defs: seq<Definition>): seq<Node>
  {
    if defs == [] then ns else Define(Build(ns, defs[..|defs| - 1]), defs[|defs| - 1])
  }

  lemma BuildSnoc(ns: seq<Node>, defs: seq<Definition>, d: Definition)
    ensures Build(ns, defs + [d]) == Define(Build(ns, defs), d)
  {
    assert (defs + [d])[..|defs|] == defs;
  }

  /** Each definition adds at most one node. */
  lemma {:induction false} BuildSize(ns: seq<Node>, defs: seq<Definition>)
    ensures ForestSize(ns) <= ForestSize(Build(ns, defs)) <= ForestSize(ns) + |defs|
  {
    if defs != [] {
      var d := defs[|defs| - 1];
      var before := Build(ns, defs[..|defs| - 1]);
      BuildSize(ns, defs[..|defs| - 1]);
      var n := NewNode(d.name, d.regex, d.parent);
      assert n.subPatterns == [] && Size(n) == Weight(Nodes, n) + ForestTotal([], Nodes);
      if |d.parent| > 0 {
        AttachSize(before, d.parent, n);
      } else {
        ForestTotalAppend(before, n, Nodes);
      }
    }
  }

  /** The ids of the roots, in order. */
  function Names(ns: seq<Node>): seq<string> {
    seq(|ns|, i requires 0 <= i < |ns| => ns[i].name)
  }

  /** The names of the rows without a parent, in file order. */
  function RootNames(defs: seq<Definition>): seq<string> {
    if defs == [] then []
    else
      var d := defs[|defs| - 1];
      RootNames(defs[..|defs| - 1]) + if d.parent == [] then [d.name] else []
  }

  /** Replacing a node by one with the same id keeps the ids of the roots. */
  lemma ReplaceAtNames(ns: seq<Node>, p: Path, m: Node)
    requires ValidPath(ns, p) && m.name == At(ns, p).name
    ensures Names(ReplaceAt(ns, p, m)) == Names(ns)
  {
    var r := ReplaceAt(ns, p, m);
    if |p| == 1 {
      assert At(ns, p) == ns[p[0]];
    }
    assert forall i :: 0 <= i < |ns| ==> r[i].name == ns[i].name;
  }

  /** `addSubPattern` never changes which patterns are roots. */
  lemma AttachNames(ns: seq<Node>, parentId: string, c: Node)
    ensures Names(Attach(ns, parentId, c)) == Names(ns)
  {
    match FindIn(ns, parentId)
    case None =>
    case Some(p) =>
      ReplaceAtNames(ns, p, Adopt(At(ns, p), c));
  }

  /** Whatever the mix of rows, the roots are the earlier roots followed by
      the rows without a parent, in file order. */
  lemma {:induction false} BuildRoots(ns: seq<Node>, defs: seq<Definition>)
    ensures Names(Build(ns, defs)) == Names(ns) + RootNames(defs)
  {
    if defs == [] {
      assert Names(ns) + [] == Names(ns);
    } else {
      var init := defs[..|defs| - 1];
      var d := defs[|defs| - 1];
      BuildRoots(ns, init);
      var before := Build(ns, init);
      var n := NewNode(d.name, d.regex, d.parent);
      if |d.parent| > 0 {
        AttachNames(before, d.parent, n);
        assert Names(ns) + RootNames(init) + [] == Names(ns) + RootNames(init);
      } else {
        assert Names(before + [n]) == Names(before) + [n.name];
      }
    }
  }
}
