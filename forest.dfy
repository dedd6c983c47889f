/** The class-level state of `EventPattern` (ProcessEvent.log.py): the list
    `_patterns` of root patterns, the operations that update it in place, and
    the per-line loop of `mainLoop`. */
module Patterns {
  import opened Wrappers
  import opened LogLine
  import opened Tree
  import opened Assembly
  import opened Matching

  /** The events of the lines that match the line grammar, in order. */
  function Events(lines: seq<string>): (es: seq<Event>)
    ensures |es| <= |lines|
  {
    if lines == [] then []
    else
      var init := Events(lines[..|lines| - 1]);
      match ParseLine(lines[|lines| - 1])
      case None => init
      case Some(e) => init + [e]
  }

  /** A line that does not match the grammar contributes no event. */
  lemma EventsSkip(lines: seq<string>, line: string)
    ensures Events(lines + [line])
         == Events(lines) + match ParseLine(line) case None => [] case Some(e) => [e]
  {
    assert (lines + [line])[..|lines|] == lines;
  }

  /** One more line adds its event, if it has one, to the events so far. */
  lemma EventsPrefix(lines: seq<string>, k: nat)
    requires k < |lines|
    ensures ParseLine(lines[k]).None? ==> Events(lines[..k + 1]) == Events(lines[..k])
    ensures ParseLine(lines[k]).Some? ==> Events(lines[..k + 1]) == Events(lines[..k]) + [ParseLine(lines[k]).value]
  {
    assert lines[..k + 1] == lines[..k] + [lines[k]];
    EventsSkip(lines[..k], lines[k]);
  }

  /** One more event is one more dispatch. */
  lemma DispatchAllSnoc(ns: seq<Node>, es: seq<Event>, e: Event, typeFilter: Option<int>)
    requires AllWellFormed(ns)
    ensures DispatchAll(ns, es + [e], typeFilter) == Dispatch(DispatchAll(ns, es, typeFilter), e, typeFilter).0
  {
    assert (es + [e])[..|es|] == es;
  }

  /** `mainMatchEvent` applied to each event in turn. */
  function DispatchAll(ns: seq<Node>, es: seq<Event>, typeFilter: Option<int>): (r: seq<Node>)
    requires AllWellFormed(ns)
    ensures AllWellFormed(r)
  {
    if es == [] then ns
    else Dispatch(DispatchAll(ns, es[..|es| - 1], typeFilter), es[|es| - 1], typeFilter).0
  }

  /** Matching never adds or removes a pattern, and records each event at
      most once. */
  lemma {:induction false} DispatchAllTotals(ns: seq<Node>, es: seq<Event>, typeFilter: Option<int>)
    requires AllWellFormed(ns)
    ensures ForestSize(DispatchAll(ns, es, typeFilter)) == ForestSize(ns)
    ensures ForestTotal(DispatchAll(ns, es, typeFilter), Occurrences) <= ForestTotal(ns, Occurrences) + |es|
  {
    if es != [] {
      var pre := es[..|es| - 1];
      DispatchAllTotals(ns, pre, typeFilter);
      DispatchTotals(DispatchAll(ns, pre, typeFilter), es[|es| - 1], typeFilter);
    }
  }

  /** `EventPattern._patterns` together with every pattern reachable from it. */
  class Forest {
    var roots: seq<Node>

    ghost predicate Valid()
      reads this
    {
      AllWellFormed(roots)
    }

    constructor ()
      ensures Valid() && roots == []
    {
      roots := [];
    }

    /** `EventPattern.addSubPattern(c)`: append `c` to the child list of the
        first node, in preorder, whose id is `c.parentId`; `ret` tells whether
        there was one. */
    method AddSubPattern(c: Node) returns (ret: bool)
      requires Valid() && WellFormed(c)
      modifies this
      ensures Valid()
      ensures ret == FindIn(old(roots), c.parentId).Some?
      ensures roots == Attach(old(roots), c.parentId, c)
    {
      AttachWellFormed(roots, c.parentId, c);
      ret := false;
      var i := 0;
      assert roots[0..] == roots;
      ShiftZero(FindIn(roots, c.parentId));
      while i < |roots|
        invariant i <= |roots| && roots == old(roots)
        invariant FindIn(roots, c.parentId) == ShiftOption(FindIn(roots[i..], c.parentId), i)
      {
        var p := roots[i];
        assert roots[i..][0] == p;
        if c.parentId == p.name {
          assert FindIn(roots[i..], c.parentId) == Some([0]);
          assert Shift([0], i) == [i];
          assert FindIn(roots, c.parentId) == Some([i]);
          roots := roots[i := Adopt(p, c)];
          ret := true;
          break;
        } else {
          var sp := FindSubPatternWithId(p, c.parentId);
          if sp.Some? {
            var q := sp.value;
            assert FindIn(roots[i..], c.parentId) == Some([0] + q);
            assert FindIn(roots, c.parentId) == Some([i] + q);
            assert ([i] + q)[0] == i && ([i] + q)[1..] == q;
            roots := roots[i := p.(subPatterns := ReplaceAt(p.subPatterns, q, Adopt(At(p.subPatterns, q), c)))];
            ret := true;
            break;
          }
        }
        FindInSkip(roots, c.parentId, i);
        ShiftShift(FindIn(roots[i + 1..], c.parentId), 1, i);
        i := i + 1;
      }
    }

    /** `EventPattern(name, regEx, parent)`: a new root when the parent is
        empty, otherwise handed to `addSubPattern`. */
    method AddPattern(d: Definition)
      requires Valid() && ValidRegex(d.regex)
      modifies this
      ensures Valid()
      ensures roots == Define(old(roots), d)
    {
      var n := NewNode(d.name, d.regex, d.parent);
      if |d.parent| > 0 {
        var added := AddSubPattern(n);
      } else {
        roots := roots + [n];
      }
    }

    /** `loadCsvFile`: one pattern per row, in file order. */
    method LoadDefinitions(defs: seq<Definition>)
      requires Valid() && forall i :: 0 <= i < |defs| ==> ValidRegex(defs[i].regex)
      modifies this
      ensures Valid()
      ensures roots == Build(old(roots), defs)
    {
      for k := 0 to |defs|
        invariant Valid() && roots == Build(old(roots), defs[..k])
      {
        assert defs[..k + 1][..k] == defs[..k];
        AddPattern(defs[k]);
      }
      assert defs[..|defs|] == defs;
    }

    /** `EventPattern.mainMatchEvent(event)`: the path of the node returned,
        `None` for Python's `None`. */
    method MainMatchEvent(e: Event, typeFilter: Option<int>) returns (ret: Option<Path>)
      requires Valid()
      modifies this
      ensures Valid()
      ensures (roots, ret) == Dispatch(old(roots), e, typeFilter)
    {
      ghost var ns := roots;
      if typeFilter.Some? && e.typeCode != typeFilter.value {
        return None;
      }
      ret := None;
      var k := 0;
      while k < |roots|
        invariant k <= |roots| && roots == ns
        invariant forall j :: 0 <= j < k ==> !Matches(roots[j], e.message)
      {
        var p := roots[k];
        var m := p.regex.run(e.message);
        if m.None? {
          k := k + 1;
          continue;
        }
        assert FirstMatching(ns, e.message) == k;
        ghost var d := Descend(p, e.message);
        assert WellFormed(p);
        if |p.subPatterns| > 0 {
          var r, h := MatchEvent(p, e);
          RecordAtHead(ns, k, d, e);
          roots := roots[k := r];
          ret := Some(if h.value.Child? then [k, h.value.index] else [k]);
          assert ret.value == Returned([k] + d);
          assert roots == Dispatch(ns, e, typeFilter).0;
          return;
        }
        assert d == [];
        RecordAtHead(ns, k, [], e);
        var r := AddEvent(p, e, m.value);
        roots := roots[k := r];
        ret := Some([k]);
        assert [k] + [] == [k];
        break;
      }
    }

    /** The loop of `mainLoop` over the lines of the event files: every line
        is counted, a line that matches the grammar is counted as a match and
        its event is dispatched. */
    method ProcessLines(lines: seq<string>, typeFilter: Option<int>) returns (lineCount: nat, matchCount: nat)
      requires Valid()
      modifies this
      ensures Valid()
      ensures lineCount == |lines| && matchCount == |Events(lines)|
      ensures roots == DispatchAll(old(roots), Events(lines), typeFilter)
    {
      lineCount, matchCount := 0, 0;
      for k := 0 to |lines|
        invariant Valid()
        invariant lineCount == k && matchCount == |Events(lines[..k])|
        invariant roots == DispatchAll(old(roots), Events(lines[..k]), typeFilter)
      {
        EventsPrefix(lines, k);
        ghost var es := Events(lines[..k]);
        lineCount := lineCount + 1;
        var parsed := ParseLine(lines[k]);
        if parsed.Some? {
          var e := parsed.value;
          DispatchAllSnoc(old(roots), es, e, typeFilter);
          matchCount := matchCount + 1;
          var returned := MainMatchEvent(e, typeFilter);
          assert roots == Dispatch(DispatchAll(old(roots), es, typeFilter), e, typeFilter).0;
          assert Events(lines[..k + 1]) == es + [e];
        } else {
          assert Events(lines[..k + 1]) == es;
        }
      }
      assert lines[..|lines|] == lines;
    }
  }
}
