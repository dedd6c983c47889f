/** The text a pattern contributes to the report (ProcessEvent.log.py,
    `EventPattern.__str__`): a header line, one line per shown group, then the
    renderings of its sub-patterns in order. The order in which `', '.join`
    visits a set is left to the parameter `join`. */
module Report {
  import opened Text
  import opened Tree

  /** A pattern that renders as nothing: no occurrences, no sub-patterns and
      `showDetail` off. */
  predicate Suppressed(n: Node, showDetail: bool) {
    |n.events| == 0 && !showDetail && |n.subPatterns| == 0
  }

  /** `"*** {1:4d}x {0} - {2}\n"` with the name, occurrence count and pattern. */
  function Header(n: Node): (h: string)
    ensures "*** " <= h && h[|h| - 1] == '\n'
  {
    "*** " + PadLeft(NatToString(|n.events|), 4) + "x " + n.name + " - " + n.regex.pattern + "\n"
  }

  /** A group name that starts with `_` is skipped unless `showDetail` is on. */
  predicate Hidden(name: string, showDetail: bool) {
    |name| > 0 && name[0] == '_' && !showDetail
  }

  /** The group names that get a line, in declaration order. */
  function Shown(names: seq<string>, showDetail: bool): (r: seq<string>)
    ensures |r| <= |names|
  {
    if names == [] then []
    else
      var init := Shown(names[..|names| - 1], showDetail);
      if Hidden(names[|names| - 1], showDetail) then init else init + [names[|names| - 1]]
  }

  /** `"  {0} ({2}): {1}\n"`: name, joined values (empty for an empty set) and
      number of values. */
  function GroupLine(name: string, values: set<string>, join: set<string> -> string): string {
    "  " + name + " (" + NatToString(|values|) + "): " + (if |values| > 0 then join(values) else "") + "\n"
  }

  /** The lines for the shown names `shown`: the `j`-th of them reports
      `values[j]`. */
  function Lines(shown: seq<string>, values: seq<set<string>>, join: set<string> -> string): string
    requires |shown| <= |values|
  {
    if shown == [] then ""
    else Lines(shown[..|shown| - 1], values, join) + GroupLine(shown[|shown| - 1], values[|shown| - 1], join)
  }

  /** The group lines of a node. The counter of `__str__` advances only for a
      shown name, so the `j`-th line names the `j`-th shown group and reports
      the `j`-th value set, which is that group's own only when no name before
      it was hidden. */
  function GroupLines(names: seq<string>, values: seq<set<string>>, showDetail: bool,
                      join: set<string> -> string): string
    requires |names| <= |values|
  {
    Lines(Shown(names, showDetail), values, join)
  }

  /** `str(n)`. */
  function Report(n: Node, showDetail: bool, join: set<string> -> string): (s: string)
    requires WellFormed(n)
    ensures s == [] <==> Suppressed(n, showDetail)
    ensures !Suppressed(n, showDetail) ==> Header(n) <= s
    decreases n
  {
    if Suppressed(n, showDetail) then ""
    else
      var h := Header(n);
      var rest := GroupLines(n.regex.groupNames, n.groupValues, showDetail, join)
                  + ReportAll(n.subPatterns, showDetail, join);
      assert (h + rest)[..|h|] == h;
      h + rest
  }

  /** The renderings of a list of patterns, one after the other. */
  function ReportAll(ns: seq<Node>, showDetail: bool, join: set<string> -> string): string
    requires forall i :: 0 <= i < |ns| ==> WellFormed(ns[i])
    decreases ns
  {
    if ns == [] then "" else Report(ns[0], showDetail, join) + ReportAll(ns[1..], showDetail, join)
  }

  /** The renderings of two consecutive runs of patterns follow each other. */
  lemma {:induction false} ReportAllAppend(a: seq<Node>, b: seq<Node>, showDetail: bool,
                                           join: set<string> -> string)
    requires forall i :: 0 <= i < |a| ==> WellFormed(a[i])
    requires forall i :: 0 <= i < |b| ==> WellFormed(b[i])
    ensures forall i :: 0 <= i < |a + b| ==> WellFormed((a + b)[i])
    ensures ReportAll(a + b, showDetail, join) == ReportAll(a, showDetail, join) + ReportAll(b, showDetail, join)
  {
    var ab := a + b;
    assert forall i :: 0 <= i < |ab| ==> ab[i] == if i < |a| then a[i] else b[i - |a|];
    if a != [] {
      assert ab[0] == a[0] && ab[1..] == a[1..] + b;
      ReportAllAppend(a[1..], b, showDetail, join);
      assert ReportAll(ab, showDetail, join) == Report(a[0], showDetail, join) + ReportAll(a[1..] + b, showDetail, join);
      assert ReportAll(a, showDetail, join) == Report(a[0], showDetail, join) + ReportAll(a[1..], showDetail, join);
    } else {
      assert ab == b;
    }
  }

  /** Each sub-pattern's rendering sits between those of its earlier and its
      later siblings. */
  lemma ReportAllAt(ns: seq<Node>, k: nat, showDetail: bool, join: set<string> -> string)
    requires forall i :: 0 <= i < |ns| ==> WellFormed(ns[i])
    requires k < |ns|
    ensures ReportAll(ns, showDetail, join)
         == ReportAll(ns[..k], showDetail, join) + Report(ns[k], showDetail, join)
            + ReportAll(ns[k + 1..], showDetail, join)
  {
    assert ns == ns[..k] + ([ns[k]] + ns[k + 1..]);
    ReportAllAppend(ns[..k], [ns[k]] + ns[k + 1..], showDetail, join);
    assert ([ns[k]] + ns[k + 1..])[1..] == ns[k + 1..];
  }

  lemma ReportAllPrefix(ns: seq<Node>, k: nat, showDetail: bool, join: set<string> -> string)
    requires forall i :: 0 <= i < |ns| ==> WellFormed(ns[i])
    requires k < |ns|
    ensures ReportAll(ns[..k + 1], showDetail, join)
         == ReportAll(ns[..k], showDetail, join) + Report(ns[k], showDetail, join)
  {
    assert ns[..k + 1] == ns[..k] + [ns[k]];
    ReportAllAppend(ns[..k], [ns[k]], showDetail, join);
    assert [ns[k]][1..] == [];
  }

  /** With `showDetail` on, every declared group is shown. */
  lemma {:induction false} ShownAll(names: seq<string>)
    ensures Shown(names, true) == names
  {
    if names != [] {
      ShownAll(names[..|names| - 1]);
    }
  }

  /** With `showDetail` on every group gets exactly one line, reporting the
      size of its own value set. */
  lemma DetailLines(names: seq<string>, values: seq<set<string>>, join: set<string> -> string)
    requires |names| <= |values|
    ensures GroupLines(names, values, true, join) == Lines(names, values, join)
  {
    ShownAll(names);
  }

  /** Without `showDetail` exactly the names not starting with `_` are shown,
      in their order. */
  lemma {:induction false} ShownVisible(names: seq<string>, showDetail: bool)
    ensures forall j :: 0 <= j < |Shown(names, showDetail)| ==> !Hidden(Shown(names, showDetail)[j], showDetail)
    ensures forall x :: x in Shown(names, showDetail) ==> x in names
    ensures forall x :: x in names && !Hidden(x, showDetail) ==> x in Shown(names, showDetail)
  {
    if names != [] {
      var init := names[..|names| - 1];
      ShownVisible(init, showDetail);
      assert names == init + [names[|names| - 1]];
    }
  }

  /** The shown names of two runs of group names follow each other, so the
      shown names keep the order of the declared ones. */
  lemma {:induction false} ShownAppend(a: seq<string>, b: seq<string>, showDetail: bool)
    ensures Shown(a + b, showDetail) == Shown(a, showDetail) + Shown(b, showDetail)
    decreases |b|
  {
    if b == [] {
      assert a + b == a;
    } else {
      var init := b[..|b| - 1];
      var x := b[|b| - 1];
      ShownAppend(a, init, showDetail);
      assert (a + b)[..|a + b| - 1] == a + init && (a + b)[|a + b| - 1] == x;
      var tail := if Hidden(x, showDetail) then [] else [x];
      assert Shown(a, showDetail) + Shown(init, showDetail) + tail
          == Shown(a, showDetail) + (Shown(init, showDetail) + tail);
    }
  }

  /** Hidden names contribute no shown name. */
  lemma {:induction false} ShownNone(hs: seq<string>, showDetail: bool)
    requires forall i :: 0 <= i < |hs| ==> Hidden(hs[i], showDetail)
    ensures Shown(hs, showDetail) == []
  {
    if hs != [] {
      ShownNone(hs[..|hs| - 1], showDetail);
    }
  }

  /** The counter quirk: after any run of hidden group names, the first shown
      group's line reports the first value set, which belongs to the first
      hidden group, not to the shown one. */
  lemma CounterQuirk(hs: seq<string>, x: string, values: seq<set<string>>, join: set<string> -> string)
    requires forall i :: 0 <= i < |hs| ==> Hidden(hs[i], false)
    requires !Hidden(x, false) && |hs| < |values|
    ensures GroupLines(hs + [x], values, false, join) == GroupLine(x, values[0], join)
  {
    ShownNone(hs, false);
    ShownAppend(hs, [x], false);
    assert [x][..0] == [];
    assert Shown([x], false) == [x];
    assert [] + [x] == [x];
    assert Lines([x], values, join) == Lines([], values, join) + GroupLine(x, values[0], join);
    assert "" + GroupLine(x, values[0], join) == GroupLine(x, values[0], join);
  }

  /** `n.__str__()`: the header, the group lines, then the sub-patterns. */
  method Render(n: Node, showDetail: bool, join: set<string> -> string) returns (s: string)
    requires WellFormed(n)
    ensures s == Report(n, showDetail, join)
    decreases n, 1
  {
    if |n.events| == 0 && !showDetail && |n.subPatterns| == 0 {
      return "";
    }
    var lines := RenderGroups(n.regex.groupNames, n.groupValues, showDetail, join);
    var subs := RenderAll(n.subPatterns, showDetail, join);
    s := Header(n) + lines + subs;
  }

  /** The loop of `__str__` over the group names, with its counter `i`. */
  method RenderGroups(names: seq<string>, values: seq<set<string>>, showDetail: bool,
                      join: set<string> -> string) returns (s: string)
    requires |names| <= |values|
    requires forall j :: 0 <= j < |names| ==> names[j] != []
    ensures s == GroupLines(names, values, showDetail, join)
  {
    s := "";
    var i := 0;
    for k := 0 to |names|
      invariant i == |Shown(names[..k], showDetail)| <= k
      invariant s == GroupLines(names[..k], values, showDetail, join)
    {
      GroupLinesStep(names, values, showDetail, join, k);
      if names[k][0] == '_' && !showDetail {
        continue;
      }
      s := s + GroupLine(names[k], values[i], join);
      i := i + 1;
    }
    assert names[..|names|] == names;
  }

  /** `ret += p.__str__()` for each sub-pattern in order. */
  method RenderAll(ns: seq<Node>, showDetail: bool, join: set<string> -> string) returns (s: string)
    requires forall i :: 0 <= i < |ns| ==> WellFormed(ns[i])
    ensures s == ReportAll(ns, showDetail, join)
    decreases ns, 0
  {
    s := "";
    for k := 0 to |ns|
      invariant s == ReportAll(ns[..k], showDetail, join)
    {
      var c := Render(ns[k], showDetail, join);
      ReportAllPrefix(ns, k, showDetail, join);
      s := s + c;
    }
    assert ns[..|ns|] == ns;
  }

  /** One more name either adds nothing (hidden) or the line for the value set
      the counter points at. */
  lemma GroupLinesStep(names: seq<string>, values: seq<set<string>>, showDetail: bool,
                       join: set<string> -> string, k: nat)
    requires |names| <= |values| && k < |names|
    ensures |Shown(names[..k], showDetail)| <= k
    ensures |Shown(names[..k + 1], showDetail)|
         == |Shown(names[..k], showDetail)| + if Hidden(names[k], showDetail) then 0 else 1
    ensures GroupLines(names[..k + 1], values, showDetail, join)
         == GroupLines(names[..k], values, showDetail, join)
            + if Hidden(names[k], showDetail) then ""
              else GroupLine(names[k], values[|Shown(names[..k], showDetail)|], join)
  {
    ShownStep(names, showDetail, k);
    var before := Shown(names[..k], showDetail);
    assert |before| <= k;
    if Hidden(names[k], showDetail) {
      assert Shown(names[..k + 1], showDetail) == before + [];
      assert before + [] == before;
    } else {
      LinesSnoc(before, names[k], values, join);
    }
  }

  lemma ShownStep(names: seq<string>, showDetail: bool, k: nat)
    requires k < |names|
    ensures Shown(names[..k + 1], showDetail)
         == Shown(names[..k], showDetail) + if Hidden(names[k], showDetail) then [] else [names[k]]
  {
    var pre := names[..k + 1];
    assert pre[..|pre| - 1] == names[..k] && pre[|pre| - 1] == names[k];
  }

  lemma LinesSnoc(shown: seq<string>, x: string, values: seq<set<string>>, join: set<string> -> string)
    requires |shown| < |values|
    ensures Lines(shown + [x], values, join) == Lines(shown, values, join) + GroupLine(x, values[|shown|], join)
  {
    assert (shown + [x])[..|shown|] == shown;
  }
}
