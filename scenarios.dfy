/** Small concrete configurations worked through: a forward reference that
    is lost, a two-level hierarchy, and one sample log line followed through
    parsing, matching and its report header. */
module Scenarios {
  import opened Wrappers
  import opened Text
  import opened LogLine
  import opened Tree
  import opened Assembly
  import opened Matching
  import opened Report

  /** A regex without groups that matches exactly the messages starting with
      `prefix`, such as `foo.*` for the prefix `foo`. */
  function PrefixRegex(source: string, prefix: string): (re: Regex)
    ensures ValidRegex(re) && re.groupNames == []
    ensures forall m :: re.run(m).Some? <==> prefix <= m
  {
    Regex(source, [], m => if prefix <= m then Some([]) else None)
  }

  /** A child declared before its parent is dropped: only the parent remains. */
  lemma ForwardReferenceLost(re: Regex)
    ensures Build([], [Definition("B", re, "A"), Definition("A", re, "")]) == [NewNode("A", re, "")]
  {
    BuildSnoc([], [], Definition("B", re, "A"));
    BuildSnoc([], [Definition("B", re, "A")], Definition("A", re, ""));
    assert [] + [Definition("B", re, "A")] == [Definition("B", re, "A")];
    assert [Definition("B", re, "A")] + [Definition("A", re, "")] == [Definition("B", re, "A"), Definition("A", re, "")];
  }

  lemma NoGroups(name: string, re: Regex, parent: string)
    requires re.groupNames == []
    ensures NewNode(name, re, parent) == Node(name, re, parent, [], [], [])
  {
    var gv: seq<set<string>> := seq(0, _ => {});
    assert gv == [];
  }

  /** Patterns `A` (`foo.*`) and `B` (`foo bar`, parent `A`): the message
      `foo bar` is recorded under `B`, which is also the node returned, and
      `A`'s count does not change. */
  lemma Hierarchy(e: Event)
    requires e.message == "foo bar"
    ensures var a := PrefixRegex("foo.*", "foo");
            var b := PrefixRegex("foo bar", "foo bar");
            var ns := Build([], [Definition("A", a, ""), Definition("B", b, "A")]);
            && ns == [Node("A", a, "", [], [], [Node("B", b, "A", [], [], [])])]
            && AllWellFormed(ns)
            && Dispatch(ns, e, None).1 == Some([0, 0])
            && Dispatch(ns, e, None).0 == [Node("A", a, "", [], [], [Node("B", b, "A", [e], [], [])])]
  {
    var a := PrefixRegex("foo.*", "foo");
    var b := PrefixRegex("foo bar", "foo bar");
    TwoLevels(a, b);
    var ns := [Node("A", a, "", [], [], [Node("B", b, "A", [], [], [])])];
    assert "foo" <= "foo bar";
    assert Matches(ns[0], "foo bar") && Matches(ns[0].subPatterns[0], "foo bar");
    assert FirstMatching(ns, "foo bar") == 0;
    assert FirstMatching(ns[0].subPatterns, "foo bar") == 0;
    assert Route(ns[0].subPatterns[0].subPatterns, "foo bar").None?;
    assert Descend(ns[0].subPatterns[0], "foo bar") == [];
    assert [0] + [] == [0];
    assert Route(ns[0].subPatterns, "foo bar") == Some([0]);
    assert Descend(ns[0], "foo bar") == [0];
    assert [0] + [0] == [0, 0];
    assert Route(ns, "foo bar") == Some([0, 0]);
    assert Returned([0, 0]) == [0, 0];
    var r := Record(ns[0].subPatterns[0], e);
    assert r == Node("B", b, "A", [e], [], []);
    assert RecordAt(ns, [0, 0], e) == ns[0 := ns[0].(subPatterns := ns[0].subPatterns[0 := r])] by {
      RecordAtHead(ns, 0, [0], e);
      RecordAtHead(ns[0].subPatterns, 0, [], e);
    }
    assert Dispatch(ns, e, None) == (RecordAt(ns, [0, 0], e), Some([0, 0]));
    assert ns[0].subPatterns[0 := r] == [r];
    assert ns[0 := ns[0].(subPatterns := [r])] == [Node("A", a, "", [], [], [r])];
  }

  /** `B` declared after its parent `A` becomes `A`'s only child. */
  lemma TwoLevels(a: Regex, b: Regex)
    requires a.groupNames == [] && b.groupNames == []
    ensures Build([], [Definition("A", a, ""), Definition("B", b, "A")])
         == [Node("A", a, "", [], [], [Node("B", b, "A", [], [], [])])]
  {
    NoGroups("A", a, "");
    NoGroups("B", b, "A");
    var da, db := Definition("A", a, ""), Definition("B", b, "A");
    BuildSnoc([], [], da);
    BuildSnoc([], [da], db);
    assert [] + [da] == [da] && [da] + [db] == [da, db];
    var roots := Build([], [da]);
    assert roots == [] + [NewNode("A", a, "")];
    assert FindIn(roots, "A") == Some([0]);
    var ns := Build([], [da, db]);
    assert ns == Attach(roots, "A", NewNode("B", b, "A"));
    assert ns == ReplaceAt(roots, [0], Adopt(roots[0], NewNode("B", b, "A")));
    assert [] + [NewNode("B", b, "A")] == [NewNode("B", b, "A")];
  }

  const StartupFields: Fields :=
    Fields("02/04/2015", " ", "12:33:35", " ", "0", " ", "0", " ", "2", " ", " ", "6480", " ", "Agentry Startup")

  /** Its event: the timestamp is the date, the gap and the clock. */
  const StartupEvent: Event :=
    Event(StartupFields.date + StartupFields.gap + StartupFields.clock, 0, "0", "2", "6480", "Agentry Startup")

  lemma StartupFieldsValid()
    ensures ValidFields(StartupFields)
  {
    var f := StartupFields;
    assert IsDate(f.date) && IsClock(f.clock);
    assert AllDigits(f.kind) && AllDigits(f.group) && AllDigits(f.id) && AllDigits(f.thread);
    assert !IsSpace(f.text[0]);
  }

  /** The line `02/04/2015 12:33:35, 0, 0, 2, Thr 6480, Agentry Startup`,
      which `StartupFields` spells, parses into its event. */
  lemma StartupLine()
    ensures ParseLine(Format(StartupFields, "\n")) == Some(StartupEvent)
  {
    var f := StartupFields;
    StartupFieldsValid();
    assert DigitsValue(f.kind) == 0;
    ParseFormat(f, "\n");
    StripSurrounded([], f.text, []);
    assert [] + f.text + [] == f.text;
  }

  /** With the single root pattern `Startup` (`Agentry Startup`), that event
      is recorded at `Startup`, whose report header shows one occurrence. */
  lemma StartupRecorded()
    ensures var re := PrefixRegex("Agentry Startup", "Agentry Startup");
            var ns := Build([], [Definition("Startup", re, "")]);
            && AllWellFormed(ns)
            && Dispatch(ns, StartupEvent, None) == ([Node("Startup", re, "", [StartupEvent], [], [])], Some([0]))
            && Header(Dispatch(ns, StartupEvent, None).0[0])
               == "*** " + "   1" + "x " + "Startup" + " - " + "Agentry Startup" + "\n"
  {
    var re := PrefixRegex("Agentry Startup", "Agentry Startup");
    var e := StartupEvent;
    NoGroups("Startup", re, "");
    var d := Definition("Startup", re, "");
    BuildSnoc([], [], d);
    assert [] + [d] == [d];
    var ns := Build([], [d]);
    assert ns == [] + [NewNode("Startup", re, "")];
    assert "Agentry Startup" <= e.message;
    assert FirstMatching(ns, e.message) == 0;
    assert Descend(ns[0], e.message) == [];
    assert [0] + [] == [0];
    assert Route(ns, e.message) == Some([0]);
    var r := Record(ns[0], e);
    assert r == Node("Startup", re, "", [e], [], []);
    assert RecordAt(ns, [0], e) == [r];
    assert Returned([0]) == [0];
    assert NatToString(1) == "1";
    assert PadLeft("1", 4) == "   1";
  }
}
