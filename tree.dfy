/** The pattern forest of ProcessEvent.log.py: `EventPattern` objects and their
    `subPatterns` lists, as a recursive datatype. A node inside the forest is
    addressed by a path of child indices; an update in place of the source
    (`subPatterns.append`, `events.append`, `groupValues[i].add`) is modelled
    as replacing the node at a path. */
module Tree {
  import opened Wrappers
  import opened LogLine

  /** A compiled regular expression, seen through what the engine uses of it:
      its source text (`regEx.pattern`), its named groups in declaration order
      (`regEx.groupindex`) and `run`, the result of `regEx.match(message)`: the
      regex applied at the start of the message, giving on success one capture
      per named group, `None` for a group that did not take part. Python's `re`
      engine itself is not modelled; `run` stands for it. */
  datatype Regex = Regex(pattern: string, groupNames: seq<string>,
                         run: string -> Option<seq<Option<string>>>)

  /** What Python guarantees of a compiled regex: group names are distinct
      non-empty identifiers and a match reports one capture per name. */
  ghost predicate ValidRegex(re: Regex) {
    && (forall i, j :: 0 <= i < j < |re.groupNames| ==> re.groupNames[i] != re.groupNames[j])
    && (forall i :: 0 <= i < |re.groupNames| ==> re.groupNames[i] != [])
    && (forall m :: re.run(m).Some? ==> |re.run(m).value| == |re.groupNames|)
  }

  /** One `EventPattern`: `name` is both its `name` and its `patternId`;
      `groupValues[i]` is the set of values seen for `regex.groupNames[i]`;
      `|events|` is its occurrence count. */
  datatype Node = Node(name: string, regex: Regex, parentId: string, events: seq<Event>,
                       groupValues: seq<set<string>>, subPatterns: seq<Node>)

  /** The node `EventPattern(name, regEx, parent)` builds: no events, one empty
      value set per named group, no sub-patterns. */
  function NewNode(name: string, regex: Regex, parentId: string): (n: Node)
    ensures |n.groupValues| == |regex.groupNames| && n.subPatterns == [] && n.events == []
    ensures forall i :: 0 <= i < |n.groupValues| ==> n.groupValues[i] == {}
  {
    Node(name, regex, parentId, [], seq(|regex.groupNames|, _ => {}), [])
  }

  predicate Matches(n: Node, message: string) {
    n.regex.run(message).Some?
  }

  ghost predicate WellFormed(n: Node)
    decreases n
  {
    && ValidRegex(n.regex)
    && |n.groupValues| == |n.regex.groupNames|
    && forall i :: 0 <= i < |n.subPatterns| ==> WellFormed(n.subPatterns[i])
  }

  ghost predicate AllWellFormed(ns: seq<Node>) {
    forall i :: 0 <= i < |ns| ==> WellFormed(ns[i])
  }

  /** A path: `p[0]` indexes the forest, each further index a child list. */
  type Path = seq<nat>

  predicate ValidPath(ns: seq<Node>, p: Path)
    decreases p
  {
    |p| > 0 && p[0] < |ns| && (|p| == 1 || ValidPath(ns[p[0]].subPatterns, p[1..]))
  }

  function At(ns: seq<Node>, p: Path): Node
    requires ValidPath(ns, p)
    decreases p
  {
    if |p| == 1 then ns[p[0]] else At(ns[p[0]].subPatterns, p[1..])
  }

  /** The forest with the node at `p` replaced by `m`. */
  function ReplaceAt(ns: seq<Node>, p: Path, m: Node): (r: seq<Node>)
    requires ValidPath(ns, p)
    ensures |r| == |ns|
    decreases p
  {
    if |p| == 1 then ns[p[0] := m]
    else
      var n := ns[p[0]];
      ns[p[0] := n.(subPatterns := ReplaceAt(n.subPatterns, p[1..], m))]
  }

  /** The fields a node owns, as opposed to its descendants: everything but
      the contents of its child list, whose length it keeps. */
  ghost predicate SameOwn(a: Node, b: Node) {
    && a.name == b.name && a.regex == b.regex && a.parentId == b.parentId
    && a.events == b.events && a.groupValues == b.groupValues
    && |a.subPatterns| == |b.subPatterns|
  }

  /** `m` keeps the child list of `n` as a prefix of its own. */
  ghost predicate Extends(m: Node, n: Node) {
    |n.subPatterns| <= |m.subPatterns| && m.subPatterns[..|n.subPatterns|] == n.subPatterns
  }

  /** What a forest-wide sum counts per node: the node itself, or its
      occurrences `len(events)`. Neither depends on the node's children. */
  datatype Measure = Nodes | Occurrences

  function Weight(f: Measure, n: Node): nat {
    match f
    case Nodes => 1
    case Occurrences => |n.events|
  }

  /** The sum of `Weight(f, _)` over a node and all its descendants. */
  function Total(n: Node, f: Measure): nat
    decreases n
  {
    Weight(f, n) + ForestTotal(n.subPatterns, f)
  }

  function ForestTotal(ns: seq<Node>, f: Measure): nat
    decreases ns
  {
    if ns == [] then 0 else Total(ns[0], f) + ForestTotal(ns[1..], f)
  }

  /** Number of nodes in a subtree and in a forest. */
  function Size(n: Node): nat { Total(n, Nodes) }

  function ForestSize(ns: seq<Node>): nat { ForestTotal(ns, Nodes) }

  lemma AtWellFormed(ns: seq<Node>, p: Path)
    requires AllWellFormed(ns) && ValidPath(ns, p)
    ensures WellFormed(At(ns, p))
    decreases p
  {
    if |p| > 1 {
      AtWellFormed(ns[p[0]].subPatterns, p[1..]);
    }
  }

  lemma {:induction false} ReplaceAtHit(ns: seq<Node>, p: Path, m: Node)
    requires ValidPath(ns, p)
    ensures ValidPath(ReplaceAt(ns, p, m), p) && At(ReplaceAt(ns, p, m), p) == m
    decreases p
  {
    if |p| > 1 {
      ReplaceAtHit(ns[p[0]].subPatterns, p[1..], m);
    }
  }

  lemma {:induction false} ReplaceAtWellFormed(ns: seq<Node>, p: Path, m: Node)
    requires AllWellFormed(ns) && ValidPath(ns, p) && WellFormed(m)
    ensures AllWellFormed(ReplaceAt(ns, p, m))
    decreases p
  {
    if |p| > 1 {
      ReplaceAtWellFormed(ns[p[0]].subPatterns, p[1..], m);
    }
  }

  /** A child list that only grows at its end keeps every path into it. */
  lemma AtPrefix(a: seq<Node>, b: seq<Node>, r: Path)
    requires ValidPath(a, r) && |a| <= |b| && b[..|a|] == a
    ensures ValidPath(b, r) && At(b, r) == At(a, r)
  {
    assert b[r[0]] == a[r[0]];
  }

  /** Replacing the node at `p` by one that keeps its own child list as a prefix
      leaves every other node's own fields as they were. */
  lemma {:induction false} ReplaceAtOthers(ns: seq<Node>, p: Path, m: Node, q: Path)
    requires ValidPath(ns, p) && ValidPath(ns, q) && q != p
    requires Extends(m, At(ns, p))
    ensures ValidPath(ReplaceAt(ns, p, m), q)
    ensures SameOwn(At(ReplaceAt(ns, p, m), q), At(ns, q))
    decreases p
  {
    var r := ReplaceAt(ns, p, m);
    assert |q| == 1 && |p| == 1 && q[0] == p[0] ==> q == p;
    if q[0] != p[0] {
      assert r[q[0]] == ns[q[0]];
      assert At(r, q) == At(ns, q);
    } else if |q| == 1 {
      assert |p| > 1;
    } else if |p| == 1 {
      assert r[p[0]] == m;
      AtPrefix(ns[p[0]].subPatterns, m.subPatterns, q[1..]);
    } else {
      assert q[1..] != p[1..] by {
        assert q == [q[0]] + q[1..] && p == [p[0]] + p[1..];
      }
      ReplaceAtOthers(ns[p[0]].subPatterns, p[1..], m, q[1..]);
    }
  }

  lemma {:induction false} ForestTotalUpdate(ns: seq<Node>, i: nat, x: Node, f: Measure)
    requires i < |ns|
    ensures ForestTotal(ns[i := x], f) + Total(ns[i], f) == ForestTotal(ns, f) + Total(x, f)
  {
    if i == 0 {
      assert ns[i := x][1..] == ns[1..];
    } else {
      ForestTotalUpdate(ns[1..], i - 1, x, f);
      assert ns[i := x][1..] == ns[1..][i - 1 := x];
    }
  }

  lemma {:induction false} ForestTotalAppend(ns: seq<Node>, c: Node, f: Measure)
    ensures ForestTotal(ns + [c], f) == ForestTotal(ns, f) + Total(c, f)
  {
    if ns == [] {
      assert ([] + [c])[1..] == [];
    } else {
      assert (ns + [c])[1..] == ns[1..] + [c];
      ForestTotalAppend(ns[1..], c, f);
    }
  }

  /** Replacing one node changes a forest-wide sum by the difference between
      the new subtree's sum and the old one's. */
  lemma {:induction false} ReplaceAtTotal(ns: seq<Node>, p: Path, m: Node, f: Measure)
    requires ValidPath(ns, p)
    ensures ForestTotal(ReplaceAt(ns, p, m), f) + Total(At(ns, p), f) == ForestTotal(ns, f) + Total(m, f)
    decreases p
  {
    var n := ns[p[0]];
    if |p| == 1 {
      ForestTotalUpdate(ns, p[0], m, f);
    } else {
      var sub := ReplaceAt(n.subPatterns, p[1..], m);
      ReplaceAtTotal(n.subPatterns, p[1..], m, f);
      ForestTotalUpdate(ns, p[0], n.(subPatterns := sub), f);
    }
  }
}
