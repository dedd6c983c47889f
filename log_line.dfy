/** The fixed grammar of an event.log line and the Event built from it
    (ProcessEvent.log.py, `line_regex` and `Event.__init__`):

      DD[-/]DD[-/]DDDD \s+ DD:DD:DD , \s* type , \s* group , \s* id , \s* Thr \s* thread , \s* message

    anchored at the start of the line only. Every repetition in the grammar is
    followed by a character it cannot consume, so the greedy regex never
    backtracks and a hand-written left-to-right parser decides the same lines. */
module LogLine {
  import opened Wrappers
  import opened Text

  /** A parsed line. `timestamp` is group 1, `typeCode` is `int` of group 2,
      `group`, `id`, `thread` are groups 3 to 5 verbatim, `message` is group 6
      stripped of surrounding whitespace. */
  datatype Event = Event(timestamp: string, typeCode: int, group: string, id: string,
                         thread: string, message: string)

  predicate IsDateSep(c: char) {
    c == '-' || c == '/'
  }

  /** `\d{2}[-/]\d{2}[-/]\d{4}` */
  predicate IsDate(d: string) {
    |d| == 10 && AllDigits(d[..2]) && IsDateSep(d[2]) && AllDigits(d[3..5])
    && IsDateSep(d[5]) && AllDigits(d[6..])
  }

  /** `\d{2}:\d{2}:\d{2}` */
  predicate IsClock(c: string) {
    |c| == 8 && AllDigits(c[..2]) && c[2] == ':' && AllDigits(c[3..5])
    && c[5] == ':' && AllDigits(c[6..])
  }

  /** Group 1, `date \s+ clock`, and the text after it. */
  function Timestamp(s: string): (r: Option<(string, string)>)
    ensures r.Some? ==> s == r.value.0 + r.value.1
  {
    if |s| < 10 || !IsDate(s[..10]) then None
    else
      var n := SpaceRun(s[10..]);
      var t := s[10 + n..];
      if n == 0 || |t| < 8 || !IsClock(t[..8]) then None
      else
        assert s == s[..18 + n] + t[8..];
        Some((s[..18 + n], t[8..]))
  }

  /** `\s*(\d+),`: the digits and the text after the comma. */
  function NumberField(s: string): (r: Option<(string, string)>)
    ensures r.Some? ==> r.value.0 != [] && AllDigits(r.value.0)
  {
    var t := TrimStart(s);
    var n := DigitRun(t);
    if n == 0 || n == |t| || t[n] != ',' then None
    else Some((t[..n], t[n + 1..]))
  }

  /** `\s*Thr\s*(\d+),` */
  function ThreadField(s: string): (r: Option<(string, string)>)
    ensures r.Some? ==> r.value.0 != [] && AllDigits(r.value.0)
  {
    var t := TrimStart(s);
    if "Thr" <= t then NumberField(t[3..]) else None
  }

  /** Position of the first line feed in `t`, or `|t|`: where `.*` stops. */
  function LineLength(t: string): (n: nat)
    ensures n <= |t| && '\n' !in t[..n]
    ensures n == |t| || t[n] == '\n'
  {
    if t == [] || t[0] == '\n' then 0
    else
      var m := LineLength(t[1..]);
      assert t[..m + 1] == [t[0]] + t[1..][..m];
      m + 1
  }

  /** `\s*(.*)`: group 6 before stripping. */
  function MessageField(s: string): (m: string)
    ensures '\n' !in m
  {
    var t := TrimStart(s);
    t[..LineLength(t)]
  }

  /** `line_regex().match(line)` followed by `Event(match)`; `None` when the
      line does not match the grammar. */
  function ParseLine(line: string): (r: Option<Event>)
    ensures r.Some? ==> IsStripped(r.value.message) && '\n' !in r.value.message
    ensures r.Some? ==> r.value.typeCode >= 0
    ensures r.Some? ==> r.value.timestamp <= line
  {
    var ts :- Timestamp(line);
    if ts.1 == [] || ts.1[0] != ',' then None
    else
      var kind :- NumberField(ts.1[1..]);
      var grp :- NumberField(kind.1);
      var id :- NumberField(grp.1);
      var thr :- ThreadField(id.1);
      Some(Event(ts.0, DigitsValue(kind.0), grp.0, id.0, thr.0, Message(thr.1)))
  }

  /** Group 6 stripped, as `Event.__init__` stores it. */
  function Message(s: string): (m: string)
    ensures IsStripped(m) && '\n' !in m
  {
    var g := MessageField(s);
    StripIsStripped(g);
    var t := TrimStart(g);
    assert '\n' !in t by {
      assert forall i :: 0 <= i < |t| ==> t[i] == g[|g| - |t| + i];
    }
    var m := TrimEnd(t);
    assert forall i :: 0 <= i < |m| ==> m[i] == t[i];
    m
  }

  /** The parts of a well-formed line, with its whitespace written out. */
  datatype Fields = Fields(date: string, gap: string, clock: string,
                           pad1: string, kind: string, pad2: string, group: string,
                           pad3: string, id: string, pad4: string, pad5: string,
                           thread: string, pad6: string, text: string)

  predicate ValidFields(f: Fields) {
    && IsDate(f.date) && f.gap != [] && AllSpaces(f.gap) && IsClock(f.clock)
    && AllSpaces(f.pad1) && AllSpaces(f.pad2) && AllSpaces(f.pad3)
    && AllSpaces(f.pad4) && AllSpaces(f.pad5) && AllSpaces(f.pad6)
    && f.kind != [] && AllDigits(f.kind) && f.group != [] && AllDigits(f.group)
    && f.id != [] && AllDigits(f.id) && f.thread != [] && AllDigits(f.thread)
    && '\n' !in f.text && (f.text == [] || !IsSpace(f.text[0]))
  }

  /** What follows the message on its line: nothing, a lone line feed, or,
      after a nonempty message, a line feed and anything at all. (After an
      empty message, `\s*` would run on into the next line.) */
  predicate LineEnd(text: string, eol: string) {
    eol == [] || eol == "\n" || (text != [] && eol[0] == '\n')
  }

  /** The event a well-formed line yields: the timestamp is the date, the gap
      and the clock, the type code is the value of the second field and the
      message is the remainder stripped. */
  function EventOf(f: Fields): Event
    requires ValidFields(f)
  {
    Event(f.date + f.gap + f.clock, DigitsValue(f.kind), f.group, f.id, f.thread, Strip(f.text))
  }

  /** The line the fields spell, followed by `eol`. */
  function Format(f: Fields, eol: string): string {
    f.date + (f.gap + (f.clock + ("," + NumberText(f.pad1, f.kind, NumberText(f.pad2, f.group,
      NumberText(f.pad3, f.id, f.pad4 + ("Thr" + NumberText(f.pad5, f.thread, f.pad6 + f.text + eol))))))))
  }

  function NumberText(pad: string, digits: string, rest: string): string {
    pad + (digits + ("," + rest))
  }

  lemma NumberFieldOf(pad: string, digits: string, rest: string)
    requires AllSpaces(pad) && digits != [] && AllDigits(digits)
    ensures NumberField(NumberText(pad, digits, rest)) == Some((digits, rest))
  {
    SpaceRunOf(pad, digits + ("," + rest));
    DigitRunOf(digits, "," + rest);
    var t := digits + ("," + rest);
    assert t[..|digits|] == digits && t[|digits| + 1..] == rest;
  }

  lemma ThreadFieldOf(pad4: string, pad5: string, digits: string, rest: string)
    requires AllSpaces(pad4) && AllSpaces(pad5) && digits != [] && AllDigits(digits)
    ensures ThreadField(pad4 + ("Thr" + NumberText(pad5, digits, rest))) == Some((digits, rest))
  {
    var t := "Thr" + NumberText(pad5, digits, rest);
    SpaceRunOf(pad4, t);
    assert t[3..] == NumberText(pad5, digits, rest);
    NumberFieldOf(pad5, digits, rest);
  }

  lemma MessageFieldOf(pad: string, text: string, eol: string)
    requires AllSpaces(pad) && '\n' !in text && (text == [] || !IsSpace(text[0]))
    requires LineEnd(text, eol)
    ensures MessageField(pad + text + eol) == text
  {
    if text == [] {
      assert pad + text + eol == pad + eol;
      SpaceRunOf(pad + eol, []);
      assert pad + eol == pad + eol + [];
    } else {
      assert pad + text + eol == pad + (text + eol);
      SpaceRunOf(pad, text + eol);
      var t := text + eol;
      assert forall i :: 0 <= i < |text| ==> t[i] == text[i];
      assert |text| < |t| ==> t[|text|] == '\n';
      assert t[..|text|] == text;
    }
  }

  lemma TimestampOf(date: string, gap: string, clock: string, tail: string)
    requires IsDate(date) && gap != [] && AllSpaces(gap) && IsClock(clock)
    ensures Timestamp(date + (gap + (clock + tail))) == Some((date + gap + clock, tail))
  {
    var line := date + (gap + (clock + tail));
    assert line[..10] == date;
    assert line[10..] == gap + (clock + tail);
    SpaceRunOf(gap, clock + tail);
    var t := line[10 + |gap|..];
    assert t == clock + tail;
    assert t[..8] == clock && t[8..] == tail;
    assert line[..18 + |gap|] == date + gap + clock;
  }

  /** A well-formed line, ending at the string's end or at a line feed, parses
      back into the event its fields spell. */
  lemma ParseFormat(f: Fields, eol: string)
    requires ValidFields(f) && LineEnd(f.text, eol)
    ensures ParseLine(Format(f, eol)) == Some(EventOf(f))
  {
    var r6 := f.pad6 + f.text + eol;
    var r5 := NumberText(f.pad5, f.thread, r6);
    var r4 := f.pad4 + ("Thr" + r5);
    var r3 := NumberText(f.pad3, f.id, r4);
    var r2 := NumberText(f.pad2, f.group, r3);
    var r1 := NumberText(f.pad1, f.kind, r2);
    TimestampOf(f.date, f.gap, f.clock, "," + r1);
    assert ("," + r1)[1..] == r1;
    NumberFieldOf(f.pad1, f.kind, r2);
    NumberFieldOf(f.pad2, f.group, r3);
    NumberFieldOf(f.pad3, f.id, r4);
    ThreadFieldOf(f.pad4, f.pad5, f.thread, r6);
    MessageFieldOf(f.pad6, f.text, eol);
    assert Message(r6) == Strip(f.text);
    var line := Format(f, eol);
    assert line == f.date + (f.gap + (f.clock + ("," + r1)));
    var ts := Timestamp(line).value;
    assert ts.1 == "," + r1;
    var kind := NumberField(ts.1[1..]).value;
    assert kind == (f.kind, r2);
    var grp := NumberField(kind.1).value;
    assert grp == (f.group, r3);
    var id := NumberField(grp.1).value;
    assert id == (f.id, r4);
    var thr := ThreadField(id.1).value;
    assert thr == (f.thread, r6);
    assert ts.1 != [] && ts.1[0] == ',';
    assert !Timestamp(line).IsFailure() && !NumberField(ts.1[1..]).IsFailure();
    assert !NumberField(kind.1).IsFailure() && !NumberField(grp.1).IsFailure();
    assert !ThreadField(id.1).IsFailure();
    assert ParseLine(line) == Some(Event(ts.0, DigitsValue(kind.0), grp.0, id.0, thr.0, Message(thr.1)));
  }

  /** Group 1 and the rest, split into the parts of the grammar. */
  lemma TimestampSplit(s: string) returns (date: string, gap: string, clock: string, rest: string)
    requires Timestamp(s).Some?
    ensures IsDate(date) && gap != [] && AllSpaces(gap) && IsClock(clock)
    ensures Timestamp(s).value == (date + gap + clock, rest)
    ensures s == date + (gap + (clock + rest))
  {
    var n := SpaceRun(s[10..]);
    date, gap, clock, rest := s[..10], s[10..10 + n], s[10 + n..18 + n], s[18 + n..];
    assert s[10..][..n] == gap;
    assert s[10 + n..][..8] == clock;
    assert s[..18 + n] == date + gap + clock;
  }

  /** `\s*(\d+),` split into its padding, digits and rest. */
  lemma NumberFieldSplit(s: string)
    requires NumberField(s).Some?
    ensures s == NumberText(Leading(s), NumberField(s).value.0, NumberField(s).value.1)
  {
    var t := TrimStart(s);
    var n := DigitRun(t);
    assert t == t[..n] + ("," + t[n + 1..]);
  }

  /** `\s*Thr\s*(\d+),` split likewise. */
  lemma ThreadFieldSplit(s: string)
    requires ThreadField(s).Some?
    ensures "Thr" <= TrimStart(s)
    ensures s == Leading(s) + ("Thr" + NumberText(Leading(TrimStart(s)[3..]), ThreadField(s).value.0,
                                                  ThreadField(s).value.1))
  {
    var t := TrimStart(s);
    var u := t[3..];
    ThrSplit(t);
    assert ThreadField(s) == NumberField(u);
    NumberFieldSplit(u);
  }

  lemma ThrSplit(t: string)
    requires "Thr" <= t
    ensures t == "Thr" + t[3..]
  {
  }

  /** `\s*(.*)` split into its padding, the text up to the line's end, and
      what follows. */
  lemma MessageSplit(s: string)
    ensures var t := TrimStart(s);
            var ln := LineLength(t);
            && '\n' !in t[..ln] && (t[..ln] == [] || !IsSpace(t[..ln][0]))
            && LineEnd(t[..ln], t[ln..]) && s == Leading(s) + t[..ln] + t[ln..]
  {
    var t := TrimStart(s);
    var ln := LineLength(t);
    assert t == t[..ln] + t[ln..];
  }

  /** Every line that matches the grammar is one a well-formed field tuple
      spells, and it parses into that tuple's event. */
  /** The steps a line that parses passes. */
  lemma ParseSteps(line: string)
    requires ParseLine(line).Some?
    ensures Timestamp(line).Some?
    ensures var r0 := Timestamp(line).value.1; r0 != [] && r0[0] == ','
    ensures var r1 := Timestamp(line).value.1[1..]; NumberField(r1).Some?
    ensures var kind := NumberField(Timestamp(line).value.1[1..]).value; NumberField(kind.1).Some?
    ensures var grp := NumberField(NumberField(Timestamp(line).value.1[1..]).value.1).value;
            NumberField(grp.1).Some?
    ensures var id := NumberField(NumberField(NumberField(Timestamp(line).value.1[1..]).value.1).value.1).value;
            ThreadField(id.1).Some?
  {
  }

  lemma CommaSplit(s: string)
    requires s != [] && s[0] == ','
    ensures s == "," + s[1..]
  {
  }

  lemma ParseSound(line: string) returns (f: Fields, eol: string)
    requires ParseLine(line).Some?
    ensures ValidFields(f) && LineEnd(f.text, eol) && line == Format(f, eol)
    ensures ParseLine(line) == Some(EventOf(f))
  {
    ParseSteps(line);
    var date, gap, clock, r0 := TimestampSplit(line);
    var r1 := r0[1..];
    CommaSplit(r0);
    var kind := NumberField(r1).value;
    var grp := NumberField(kind.1).value;
    var id := NumberField(grp.1).value;
    var thr := ThreadField(id.1).value;
    NumberFieldSplit(r1);
    NumberFieldSplit(kind.1);
    NumberFieldSplit(grp.1);
    ThreadFieldSplit(id.1);
    MessageSplit(thr.1);
    var t6 := TrimStart(thr.1);
    var ln := LineLength(t6);
    var text := t6[..ln];
    eol := t6[ln..];
    var pad5 := Leading(TrimStart(id.1)[3..]);
    f := Fields(date, gap, clock, Leading(r1), kind.0, Leading(kind.1), grp.0, Leading(grp.1), id.0,
                    Leading(id.1), pad5, thr.0, Leading(thr.1), text);
    assert ValidFields(f);
    assert thr.1 == f.pad6 + f.text + eol;
    assert id.1 == f.pad4 + ("Thr" + NumberText(f.pad5, f.thread, thr.1));
    assert line == Format(f, eol);
    assert LineEnd(f.text, eol);
    ParseFormat(f, eol);
    assert ParseLine(line) == Some(EventOf(f));
  }

  /** `line` is the text of the well-formed fields `f` followed by the line
      end `eol`. */
  predicate Spells(line: string, f: Fields, eol: string) {
    ValidFields(f) && LineEnd(f.text, eol) && line == Format(f, eol)
  }

  /** A line matches the grammar exactly when it is the text of a well-formed
      field tuple followed by a proper line end. */
  lemma Grammar(line: string)
    ensures ParseLine(line).Some? <==> exists f: Fields, eol: string :: Spells(line, f, eol)
  {
    if ParseLine(line).Some? {
      var f, eol := ParseSound(line);
      assert Spells(line, f, eol);
    }
    forall f: Fields, eol: string | Spells(line, f, eol)
      ensures ParseLine(line).Some?
    {
      SpellsParses(line, f, eol);
    }
  }

  lemma SpellsParses(line: string, f: Fields, eol: string)
    requires Spells(line, f, eol)
    ensures ParseLine(line) == Some(EventOf(f))
  {
    ParseFormat(f, eol);
  }
}
