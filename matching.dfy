/** Matching an event against the pattern forest and recording it
    (ProcessEvent.log.py, `mainMatchEvent`, `matchEvent`, `addEvent`). The walk
    takes the first root whose regex matches the message, then at each level
    the first child whose regex matches, and stops at a node none of whose
    children matches; the event is recorded at that node only. The value
    handed back is the matching root or its immediate child, never deeper. */
module Matching {
  import opened Wrappers
  import opened LogLine
  import opened Tree

  /** Index of the first node of `level` whose regex matches `msg`, or
      `|level|` when none does. */
  function FirstMatching(level: seq<Node>, msg: string): (k: nat)
    ensures k <= |level|
    ensures k < |level| ==> Matches(level[k], msg)
    ensures forall i :: 0 <= i < k ==> !Matches(level[i], msg)
  {
    if level == [] || Matches(level[0], msg) then 0
    else 1 + FirstMatching(level[1..], msg)
  }

  /** The path of the node the walk stops at, starting from a list of
      siblings: `None` when no sibling matches. */
  function Route(ns: seq<Node>, msg: string): (r: Option<Path>)
    ensures r.None? <==> forall i :: 0 <= i < |ns| ==> !Matches(ns[i], msg)
    ensures r.Some? ==> ValidPath(ns, r.value) && Matches(At(ns, r.value), msg)
    decreases ns
  {
    var k := FirstMatching(ns, msg);
    if k == |ns| then None
    else
      var d := Descend(ns[k], msg);
      assert ([k] + d)[1..] == d;
      Some([k] + d)
  }

  /** The rest of the walk below a matching node `n`, as a path into
      `n.subPatterns`; empty when no child of `n` matches. */
  function Descend(n: Node, msg: string): (d: Path)
    ensures d != [] ==> ValidPath(n.subPatterns, d) && Matches(At(n.subPatterns, d), msg)
    decreases n
  {
    match Route(n.subPatterns, msg)
    case None => []
    case Some(d) => d
  }

  /** `p[j]` is the first node of `level` that matches. */
  predicate FirstIn(level: seq<Node>, k: nat, msg: string) {
    k < |level| && Matches(level[k], msg) && forall i :: 0 <= i < k ==> !Matches(level[i], msg)
  }

  /** The siblings among which the walk along `p` chooses its `j`-th step. */
  function Level(ns: seq<Node>, p: Path, j: nat): seq<Node>
    requires ValidPath(ns, p) && j < |p|
    decreases j
  {
    if j == 0 then ns else Level(ns[p[0]].subPatterns, p[1..], j - 1)
  }

  /** First match wins at every level, and the walk stops only where no
      child matches. */
  ghost predicate FirstMatchWalk(ns: seq<Node>, p: Path, msg: string) {
    && ValidPath(ns, p)
    && (forall j :: 0 <= j < |p| ==> FirstIn(Level(ns, p, j), p[j], msg))
    && (forall i :: 0 <= i < |At(ns, p).subPatterns| ==> !Matches(At(ns, p).subPatterns[i], msg))
  }

  /** The walk that `Route` computes is the first-match walk. */
  lemma {:induction false} RouteWalk(ns: seq<Node>, msg: string)
    requires Route(ns, msg).Some?
    ensures FirstMatchWalk(ns, Route(ns, msg).value, msg)
    decreases ns
  {
    var k := FirstMatching(ns, msg);
    var sub := ns[k].subPatterns;
    var p := Route(ns, msg).value;
    assert p == [k] + Descend(ns[k], msg);
    assert p[0] == k && p[1..] == Descend(ns[k], msg);
    match Route(sub, msg)
    case None =>
      assert p == [k];
    case Some(d) =>
      RouteWalk(sub, msg);
      forall j | 0 <= j < |p|
        ensures FirstIn(Level(ns, p, j), p[j], msg)
      {
        if j > 0 {
          assert Level(ns, p, j) == Level(sub, d, j - 1);
          assert p[j] == d[j - 1];
        }
      }
  }

  /** Conversely, a first-match walk is the one `Route` computes: there is
      exactly one. */
  lemma {:induction false} WalkRoute(ns: seq<Node>, p: Path, msg: string)
    requires FirstMatchWalk(ns, p, msg)
    ensures Route(ns, msg) == Some(p)
    decreases p
  {
    assert FirstIn(Level(ns, p, 0), p[0], msg);
    var k := p[0];
    assert FirstMatching(ns, msg) == k;
    var sub := ns[k].subPatterns;
    if |p| == 1 {
      assert At(ns, p) == ns[k];
      assert forall i :: 0 <= i < |sub| ==> !Matches(sub[i], msg);
      assert Descend(ns[k], msg) == [];
      assert p == [k] + [];
    } else {
      var d := p[1..];
      forall j | 0 <= j < |d|
        ensures FirstIn(Level(sub, d, j), d[j], msg)
      {
        assert Level(ns, p, j + 1) == Level(sub, d, j);
        assert FirstIn(Level(ns, p, j + 1), p[j + 1], msg);
      }
      assert At(ns, p) == At(sub, d);
      WalkRoute(sub, d, msg);
      assert p == [k] + d;
    }
  }

  /** What `addEvent` stores for one group: the capture, `"-None-"` for a
      group that did not take part. */
  function ValueOf(o: Option<string>): string {
    match o
    case None => "-None-"
    case Some(v) => v
  }

  /** `n.addEvent(event, match)` on a node value, `caps` being the match's
      captures in group order. */
  function Recorded(n: Node, e: Event, caps: seq<Option<string>>): (r: Node)
    requires |caps| == |n.groupValues|
    ensures r.name == n.name && r.regex == n.regex && r.parentId == n.parentId
    ensures r.subPatterns == n.subPatterns
    ensures r.events == n.events + [e]
    ensures |r.groupValues| == |n.groupValues|
    ensures forall i :: 0 <= i < |caps| ==>
              && n.groupValues[i] <= r.groupValues[i]
              && ValueOf(caps[i]) in r.groupValues[i]
              && r.groupValues[i] - n.groupValues[i] <= {ValueOf(caps[i])}
  {
    n.(events := n.events + [e],
       groupValues := seq(|caps|, i requires 0 <= i < |caps| => n.groupValues[i] + {ValueOf(caps[i])}))
  }

  /** A value already in a group's set leaves that set as it was; a new one
      grows it by one. */
  lemma RecordedSizes(n: Node, e: Event, caps: seq<Option<string>>, i: nat)
    requires |caps| == |n.groupValues| && i < |caps|
    ensures |Recorded(n, e, caps).groupValues[i]|
         == |n.groupValues[i]| + (if ValueOf(caps[i]) in n.groupValues[i] then 0 else 1)
    ensures ValueOf(caps[i]) in n.groupValues[i] ==> Recorded(n, e, caps).groupValues[i] == n.groupValues[i]
  {
    var r := Recorded(n, e, caps).groupValues[i];
    var v := ValueOf(caps[i]);
    if v in n.groupValues[i] {
      assert r == n.groupValues[i];
    } else {
      assert r == n.groupValues[i] + {v};
    }
  }

  /** `n` matches `msg` with one capture per value set. */
  predicate CanRecord(n: Node, msg: string) {
    Matches(n, msg) && |n.regex.run(msg).value| == |n.groupValues|
  }

  lemma WellFormedCanRecord(n: Node, msg: string)
    requires WellFormed(n) && Matches(n, msg)
    ensures CanRecord(n, msg)
  {
  }

  /** `addEvent` with the node's own match of the message. */
  function Record(n: Node, e: Event): Node
    requires CanRecord(n, e.message)
  {
    Recorded(n, e, n.regex.run(e.message).value)
  }

  /** The forest with `e` recorded at the node at `p`. */
  function RecordAt(ns: seq<Node>, p: Path, e: Event): seq<Node>
    requires ValidPath(ns, p) && CanRecord(At(ns, p), e.message)
  {
    ReplaceAt(ns, p, Record(At(ns, p), e))
  }

  /** The node `n` with `e` recorded at the descendant at `d`, or at `n`
      itself when `d` is empty. */
  function RecordBelow(n: Node, d: Path, e: Event): Node
    requires d == [] ==> CanRecord(n, e.message)
    requires d != [] ==> ValidPath(n.subPatterns, d) && CanRecord(At(n.subPatterns, d), e.message)
  {
    if d == [] then Record(n, e) else n.(subPatterns := RecordAt(n.subPatterns, d, e))
  }

  /** Recording below the `k`-th sibling only replaces that sibling. */
  lemma RecordAtHead(ns: seq<Node>, k: nat, d: Path, e: Event)
    requires ValidPath(ns, [k] + d) && CanRecord(At(ns, [k] + d), e.message)
    ensures d != [] ==> ValidPath(ns[k].subPatterns, d) && At(ns, [k] + d) == At(ns[k].subPatterns, d)
    ensures RecordAt(ns, [k] + d, e) == ns[k := RecordBelow(ns[k], d, e)]
  {
    assert ([k] + d)[0] == k && ([k] + d)[1..] == d;
  }

  /** Recording changes the recorded node as `addEvent` does. */
  lemma RecordAtHit(ns: seq<Node>, p: Path, e: Event)
    requires ValidPath(ns, p) && CanRecord(At(ns, p), e.message)
    ensures ValidPath(RecordAt(ns, p, e), p)
    ensures At(RecordAt(ns, p, e), p) == Recorded(At(ns, p), e, At(ns, p).regex.run(e.message).value)
  {
    ReplaceAtHit(ns, p, Record(At(ns, p), e));
  }

  /** Recording leaves every other node's own fields as they were: no
      ancestor's count or value sets change. */
  lemma RecordAtOthers(ns: seq<Node>, p: Path, e: Event, q: Path)
    requires ValidPath(ns, p) && CanRecord(At(ns, p), e.message)
    requires ValidPath(ns, q) && q != p
    ensures ValidPath(RecordAt(ns, p, e), q) && SameOwn(At(RecordAt(ns, p, e), q), At(ns, q))
  {
    var m := Record(At(ns, p), e);
    assert m.subPatterns[..|At(ns, p).subPatterns|] == At(ns, p).subPatterns;
    ReplaceAtOthers(ns, p, m, q);
  }

  /** Recording keeps the shape of the forest and adds one occurrence. */
  lemma RecordAtTotals(ns: seq<Node>, p: Path, e: Event)
    requires ValidPath(ns, p) && CanRecord(At(ns, p), e.message)
    ensures ForestSize(RecordAt(ns, p, e)) == ForestSize(ns)
    ensures ForestTotal(RecordAt(ns, p, e), Occurrences) == ForestTotal(ns, Occurrences) + 1
  {
    var n := At(ns, p);
    var m := Record(n, e);
    ReplaceAtTotal(ns, p, m, Nodes);
    ReplaceAtTotal(ns, p, m, Occurrences);
    assert Total(m, Nodes) == Total(n, Nodes);
    assert Total(m, Occurrences) == Total(n, Occurrences) + 1;
  }

  lemma RecordAtWellFormed(ns: seq<Node>, p: Path, e: Event)
    requires AllWellFormed(ns) && ValidPath(ns, p) && CanRecord(At(ns, p), e.message)
    ensures AllWellFormed(RecordAt(ns, p, e))
  {
    AtWellFormed(ns, p);
    ReplaceAtWellFormed(ns, p, Record(At(ns, p), e));
  }

  /** The node `mainMatchEvent` returns for the walk `p`: the root, or the
      root's immediate child on the walk. */
  function Returned(p: Path): (r: Path)
    requires |p| > 0
    ensures r <= p && |r| == if |p| == 1 then 1 else 2
  {
    if |p| == 1 then p else p[..2]
  }

  /** The type filter lets the event through. */
  predicate Passes(e: Event, typeFilter: Option<int>) {
    typeFilter.None? || e.typeCode == typeFilter.value
  }

  /** `EventPattern.mainMatchEvent(event)`: the new forest and the path of
      the node returned, `None` for Python's `None`. */
  function Dispatch(ns: seq<Node>, e: Event, typeFilter: Option<int>): (r: (seq<Node>, Option<Path>))
    requires AllWellFormed(ns)
    ensures !Passes(e, typeFilter) ==> r.0 == ns && r.1.None?
    ensures r.1.Some? <==> Passes(e, typeFilter) && exists i :: 0 <= i < |ns| && Matches(ns[i], e.message)
    ensures r.1.None? ==> r.0 == ns
    ensures r.1.Some? ==> ValidPath(r.0, r.1.value)
    ensures AllWellFormed(r.0)
  {
    if !Passes(e, typeFilter) then (ns, None)
    else match Route(ns, e.message)
      case None => (ns, None)
      case Some(p) =>
        AtWellFormed(ns, p);
        RecordAtHit(ns, p, e);
        RecordAtWellFormed(ns, p, e);
        assert ValidPath(RecordAt(ns, p, e), Returned(p)) by {
          assert Returned(p)[0] == p[0];
          assert |p| > 1 ==> Returned(p)[1..] == [p[1]];
        }
        (RecordAt(ns, p, e), Some(Returned(p)))
  }

  /** An event that passes the filter is recorded at the end of the
      first-match walk and nowhere else, and the node returned is the walk's
      first or second step. */
  lemma DispatchWalk(ns: seq<Node>, e: Event, typeFilter: Option<int>, p: Path)
    requires AllWellFormed(ns) && Passes(e, typeFilter) && FirstMatchWalk(ns, p, e.message)
    ensures CanRecord(At(ns, p), e.message)
    ensures Dispatch(ns, e, typeFilter) == (RecordAt(ns, p, e), Some(Returned(p)))
  {
    WalkRoute(ns, p, e.message);
    AtWellFormed(ns, p);
  }

  /** Whatever happens, the forest keeps its nodes, and its total number of
      occurrences grows by one exactly when a node is returned. */
  lemma DispatchTotals(ns: seq<Node>, e: Event, typeFilter: Option<int>)
    requires AllWellFormed(ns)
    ensures ForestSize(Dispatch(ns, e, typeFilter).0) == ForestSize(ns)
    ensures ForestTotal(Dispatch(ns, e, typeFilter).0, Occurrences)
         == ForestTotal(ns, Occurrences) + (if Dispatch(ns, e, typeFilter).1.Some? then 1 else 0)
  {
    if Passes(e, typeFilter) && Route(ns, e.message).Some? {
      var p := Route(ns, e.message).value;
      AtWellFormed(ns, p);
      RecordAtTotals(ns, p, e);
    }
  }

  /** Which node `matchEvent` returns: itself, or its child at `index`. */
  datatype Hit = Itself | Child(index: nat)

  /** `n.addEvent(event, match)`: the loop over the match's groups. */
  method AddEvent(n: Node, e: Event, caps: seq<Option<string>>) returns (r: Node)
    requires |caps| == |n.groupValues|
    ensures r == Recorded(n, e, caps)
  {
    var values := n.groupValues;
    var i := 0;
    while i < |caps|
      invariant i <= |caps| && |values| == |caps|
      invariant forall j :: 0 <= j < i ==> values[j] == n.groupValues[j] + {ValueOf(caps[j])}
      invariant forall j :: i <= j < |caps| ==> values[j] == n.groupValues[j]
    {
      var value := if caps[i].None? then "-None-" else caps[i].value;
      values := values[i := values[i] + {value}];
      i := i + 1;
    }
    r := n.(events := n.events + [e], groupValues := values);
  }

  /** `n.matchEvent(event)` on a node value: `None` when `n` does not match;
      otherwise the event is recorded at the end of the walk below `n`, and
      the hit says whether `n` itself or which child was returned. */
  method MatchEvent(n: Node, e: Event) returns (r: Node, hit: Option<Hit>)
    requires WellFormed(n)
    ensures hit.None? <==> !Matches(n, e.message)
    ensures hit.None? ==> r == n
    ensures hit.Some? ==> CanRecord(n, e.message)
    ensures hit.Some? ==>
              var d := Descend(n, e.message);
              && (d == [] || CanRecord(At(n.subPatterns, d), e.message))
              && r == RecordBelow(n, d, e)
              && hit.value == if d == [] then Itself else Child(d[0])
    decreases n
  {
    var m := n.regex.run(e.message);
    if m.None? {
      return n, None;
    }
    var i := 0;
    while i < |n.subPatterns|
      invariant i <= |n.subPatterns|
      invariant forall j :: 0 <= j < i ==> !Matches(n.subPatterns[j], e.message)
    {
      var c := n.subPatterns[i];
      var rc, h := MatchEvent(c, e);
      if h.Some? {
        ghost var dc := Descend(c, e.message);
        assert FirstMatching(n.subPatterns, e.message) == i;
        assert Descend(n, e.message) == [i] + dc;
        assert ValidPath(n.subPatterns, [i] + dc);
        RecordAtHead(n.subPatterns, i, dc, e);
        return n.(subPatterns := n.subPatterns[i := rc]), Some(Child(i));
      }
      i := i + 1;
    }
    assert Descend(n, e.message) == [];
    r := AddEvent(n, e, m.value);
    return r, Some(Itself);
  }
}
