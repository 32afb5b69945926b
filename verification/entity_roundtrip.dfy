/** Parse after write: what the loader reads back from a file the saver
    wrote, under the rendering `EntityWriter.Render` assumes. The entity name,
    the class paths, the field pairs and every section's tokens come back;
    the sections do not come back per component, because every component of
    a Components block is stored with the block's one shared sections list. */
module EntityRoundTrip {
  import opened Wrappers
  import opened JavaStrings
  import opened EntityModel
  import opened EntityParser
  import opened EntityWriter

  // ---------------------------------------------------------------------
  // What the saver is given
  // ---------------------------------------------------------------------

  /** A character of a field key or value: one the loader neither strips,
      trims, splits a field on nor reads as structure. */
  predicate FieldChar(c: char) {
    c > ' ' && c != ':' && c != ';' && c != '{' && c != '}'
  }

  predicate FieldText(s: string) {
    forall i :: 0 <= i < |s| ==> FieldChar(s[i])
  }

  /** A character of a section token: a field character that is not the
      token separator `,`. */
  predicate TokenChar(c: char) {
    FieldChar(c) && c != ','
  }

  predicate Token(s: string) {
    forall i :: 0 <= i < |s| ==> TokenChar(s[i])
  }

  /** A name that survives the Name line: no whitespace, no `;`, and no `}`
      (a `}` would turn the line into the block's closing line). */
  predicate NameOk(n: string) {
    NoWhitespace(n) && ';' !in n && '}' !in n
  }

  predicate FieldOk(f: Field) {
    FieldText(f.key) && FieldText(f.value) && f.value != ""
  }

  predicate RowOk(row: seq<string>) {
    forall i :: 0 <= i < |row| ==> Token(row[i]) && row[i] != ""
  }

  /** A section to save: its name and its data, one row per writeSegmentData
      call, each row written as `t1,t2,...,tn,`. */
  datatype SectionSpec = SectionSpec(name: string, rows: seq<seq<string>>)

  /** A component to save: class name, field pairs and sections. */
  datatype ComponentSpec = ComponentSpec(classpath: string, fields: seq<Field>, sections: seq<SectionSpec>)

  predicate SectionOk(s: SectionSpec) {
    NoWhitespace(s.name) && forall i :: 0 <= i < |s.rows| ==> RowOk(s.rows[i])
  }

  predicate ComponentOk(c: ComponentSpec) {
    && NoWhitespace(c.classpath)
    && (forall i :: 0 <= i < |c.fields| ==> FieldOk(c.fields[i]))
    && (forall i :: 0 <= i < |c.sections| ==> SectionOk(c.sections[i]))
  }

  /** The savable string of a field pair, `key: value`. */
  function FieldString(f: Field): string {
    f.key + ": " + f.value
  }

  function FieldStrings(fs: seq<Field>): (r: seq<string>)
    ensures |r| == |fs|
    ensures forall i :: 0 <= i < |r| ==> r[i] == FieldString(fs[i])
  {
    seq(|fs|, i requires 0 <= i < |fs| => FieldString(fs[i]))
  }

  /** Each row as one `t1,t2,...,tn,` data string. */
  function RowTexts(rows: seq<seq<string>>): (r: seq<string>)
    ensures |r| == |rows|
    ensures forall i :: 0 <= i < |r| ==> r[i] == Terminated(rows[i], ',')
  {
    seq(|rows|, i requires 0 <= i < |rows| => Terminated(rows[i], ','))
  }

  function SaverOf(s: SectionSpec): Saver {
    Saver(s.name, RowTexts(s.rows))
  }

  function Savers(ss: seq<SectionSpec>): (r: seq<Saver>)
    ensures |r| == |ss|
    ensures forall i :: 0 <= i < |r| ==> r[i] == SaverOf(ss[i])
  {
    seq(|ss|, i requires 0 <= i < |ss| => SaverOf(ss[i]))
  }

  function SavableOf(c: ComponentSpec): Savable {
    Savable(FieldStrings(c.fields), Savers(c.sections))
  }

  function ClassNames(cs: seq<ComponentSpec>): (r: seq<string>)
    ensures |r| == |cs|
    ensures forall i :: 0 <= i < |r| ==> r[i] == cs[i].classpath
  {
    seq(|cs|, i requires 0 <= i < |cs| => cs[i].classpath)
  }

  function Savables(cs: seq<ComponentSpec>): (r: seq<Savable>)
    ensures |r| == |cs|
    ensures forall i :: 0 <= i < |r| ==> r[i] == SavableOf(cs[i])
  {
    seq(|cs|, i requires 0 <= i < |cs| => SavableOf(cs[i]))
  }

  // ---------------------------------------------------------------------
  // What the loader should give back
  // ---------------------------------------------------------------------

  /** The pieces one after another. */
  function Concat<T>(xss: seq<seq<T>>): seq<T>
    decreases |xss|
  {
    if |xss| == 0 then [] else Concat(xss[..|xss| - 1]) + xss[|xss| - 1]
  }

  /** A saved section read back: its name and the tokens of all its rows. */
  function SectionOf(s: SectionSpec): Section {
    Section(s.name, Concat(s.rows))
  }

  function SectionsOf(ss: seq<SectionSpec>): (r: seq<Section>)
    ensures |r| == |ss|
    ensures forall i :: 0 <= i < |r| ==> r[i] == SectionOf(ss[i])
  {
    seq(|ss|, i requires 0 <= i < |ss| => SectionOf(ss[i]))
  }

  /** Every section of every component, in file order: the final contents of
      the shared list. */
  function AllSections(cs: seq<ComponentSpec>): seq<Section> {
    Concat(SectionLists(cs))
  }

  function SectionLists(cs: seq<ComponentSpec>): (r: seq<seq<Section>>)
    ensures |r| == |cs|
    ensures forall i :: 0 <= i < |r| ==> r[i] == SectionsOf(cs[i].sections)
  {
    seq(|cs|, i requires 0 <= i < |cs| => SectionsOf(cs[i].sections))
  }

  function Descriptors(cs: seq<ComponentSpec>): (r: seq<Descriptor>)
    ensures |r| == |cs|
    ensures forall i :: 0 <= i < |r| ==> r[i] == Descriptor(cs[i].classpath, cs[i].fields)
  {
    seq(|cs|, i requires 0 <= i < |cs| => Descriptor(cs[i].classpath, cs[i].fields))
  }

  lemma ConcatSnoc<T>(xss: seq<seq<T>>, i: nat)
    requires i < |xss|
    ensures Concat(xss[..i + 1]) == Concat(xss[..i]) + xss[i]
  {
    assert xss[..i + 1][..i] == xss[..i];
  }

  lemma {:induction false} ConcatCons<T>(xss: seq<seq<T>>)
    requires |xss| > 0
    ensures Concat(xss) == xss[0] + Concat(xss[1..])
    decreases |xss|
  {
    if |xss| > 1 {
      var n := |xss|;
      ConcatCons(xss[..n - 1]);
      assert xss[..n - 1][1..] == xss[1..][..n - 2];
      assert xss[..n - 1][0] == xss[0];
    } else {
      assert xss[..0] == [];
      assert xss[1..] == [];
    }
  }

  lemma PrefixSnoc<T>(s: seq<T>, i: nat)
    requires i < |s|
    ensures s[..i] + [s[i]] == s[..i + 1]
  {
  }

  // ---------------------------------------------------------------------
  // Composition of runs
  // ---------------------------------------------------------------------

  lemma RunThen(st: State, a: seq<string>, b: seq<string>, mid: State)
    requires Valid(st) && Run(st, a) == Ok(mid)
    ensures Valid(mid)
    ensures Run(st, a + b) == Run(mid, b)
  {
    RunAppend(st, a, b);
  }

  lemma RunOne(st: State, line: string)
    requires Valid(st)
    ensures Run(st, [line]) == Step(st, line)
  {
  }

  lemma RunCons(st: State, line: string, rest: seq<string>, next: State)
    requires Valid(st) && Step(st, line) == Ok(next)
    ensures Run(st, [line] + rest) == Run(next, rest)
  {
    assert ([line] + rest)[0] == line && ([line] + rest)[1..] == rest;
  }

  /** A run that succeeds line by line through the given states. */
  lemma {:induction false} RunThrough(sts: seq<State>, lines: seq<string>)
    requires |sts| == |lines| + 1
    requires forall i :: 0 <= i < |sts| ==> Valid(sts[i])
    requires forall i :: 0 <= i < |lines| ==> Step(sts[i], lines[i]) == Ok(sts[i + 1])
    ensures Run(sts[0], lines) == Ok(sts[|lines|])
    decreases |lines|
  {
    if |lines| > 0 {
      RunThrough(sts[1..], lines[1..]);
    }
  }

  /** A run that succeeds segment by segment through the given states. */
  lemma {:induction false} RunChain(sts: seq<State>, segs: seq<seq<string>>)
    requires |sts| == |segs| + 1
    requires forall i :: 0 <= i < |sts| ==> Valid(sts[i])
    requires forall i :: 0 <= i < |segs| ==> Run(sts[i], segs[i]) == Ok(sts[i + 1])
    ensures Run(sts[0], Concat(segs)) == Ok(sts[|segs|])
    decreases |segs|
  {
    var n := |segs|;
    if n > 0 {
      RunChain(sts[..n], segs[..n - 1]);
      RunThen(sts[0], Concat(segs[..n - 1]), segs[n - 1], sts[n - 1]);
    }
  }

  // ---------------------------------------------------------------------
  // Single lines
  // ---------------------------------------------------------------------

  /** `h {` is an opening line whose header is h. */
  lemma OpenLineText(h: string)
    requires NoWhitespace(h)
    ensures Contains(h + " {", "{") && Header(h + " {") == h
  {
    var line := h + " {";
    assert line == (h + " ") + "{" + "";
    ContainsOccurrence(h + " ", "{", "");
    StripWhitespaceAppend(h, " {");
    StripWhitespaceKeeps(h);
    assert StripWhitespace(" {") == "{" by {
      assert " {"[1..] == "{";
      assert "{"[1..] == "";
    }
  }

  lemma CloseLineText()
    ensures !Contains("};", "{") && Contains("};", "};")
  {
    MissingCharNotContained("};", "{", '{');
  }

  /** A line without braces is neither an opening nor a closing line. */
  lemma NoBraces(line: string)
    requires '{' !in line && '}' !in line
    ensures !Contains(line, "{") && !Contains(line, "};")
  {
    MissingCharNotContained(line, "{", '{');
    MissingCharNotContained(line, "};", '}');
  }

  lemma StripColonSpace()
    ensures StripWhitespace(": ") == ":"
  {
    assert ": "[1..] == " ";
    assert " "[1..] == "";
  }

  lemma StripFieldLine(k: string, v: string)
    requires NoWhitespace(k) && NoWhitespace(v)
    ensures StripWhitespace(k + ": " + v + ";") == k + ":" + v + ";"
  {
    StripWhitespaceAppend(k + ": " + v, ";");
    StripWhitespaceAppend(k + ": ", v);
    StripWhitespaceAppend(k, ": ");
    StripWhitespaceKeeps(k);
    StripWhitespaceKeeps(v);
    StripWhitespaceKeeps(";");
    StripColonSpace();
  }

  lemma RemoveTrailingSemicolon(s: string)
    requires ';' !in s
    ensures RemoveChar(s + ";", ';') == s
  {
    RemoveCharAppend(s, ";", ';');
    RemoveCharKeeps(s, ';');
    assert RemoveChar(";", ';') == "" by {
      assert ";"[1..] == "";
    }
  }

  lemma FieldTextNoWhitespace(s: string)
    requires FieldText(s)
    ensures NoWhitespace(s) && Printable(s)
  {
  }

  /** A field line has no braces, so it is neither an opening nor a closing
      line. */
  lemma FieldLineShape(k: string, v: string)
    requires FieldText(k) && FieldText(v)
    ensures k + ": " + v + ";" != ""
    ensures !Contains(k + ": " + v + ";", "{") && !Contains(k + ": " + v + ";", "};")
  {
    var line := k + ": " + v + ";";
    assert line == k + (": " + v + ";");
    assert '{' !in k && '}' !in k && '{' !in v && '}' !in v;
    assert '{' !in line && '}' !in line;
    NoBraces(line);
  }

  /** What the loader's clean-up makes of a field line: `key:value`. */
  lemma FieldLineCleaned(k: string, v: string)
    requires FieldText(k) && FieldText(v)
    ensures Trim(RemoveChar(StripWhitespace(k + ": " + v + ";"), ';')) == k + [':'] + v
  {
    FieldTextNoWhitespace(k);
    FieldTextNoWhitespace(v);
    StripFieldLine(k, v);
    var stripped := k + ":" + v;
    ColonJoinChars(k, v);
    RemoveTrailingSemicolon(stripped);
    assert stripped == k + [':'] + v;
  }

  lemma ColonJoinChars(k: string, v: string)
    requires FieldText(k) && FieldText(v)
    ensures Printable(k + ":" + v) && ';' !in k + ":" + v
  {
    var s := k + ":" + v;
    forall i | 0 <= i < |s|
      ensures s[i] > ' ' && s[i] != ';'
    {
      if i < |k| { assert s[i] == k[i]; }
      else if i > |k| { assert s[i] == v[i - |k| - 1]; }
    }
  }

  /** The field line the saver writes for (k, v) splits back into k and v. */
  lemma FieldLineText(k: string, v: string)
    requires FieldText(k) && FieldText(v) && v != ""
    ensures Split(Trim(RemoveChar(StripWhitespace(k + ": " + v + ";"), ';')), ':') == [k, v]
    ensures Trim(k) == k && Trim(v) == v
  {
    FieldLineCleaned(k, v);
    assert ':' !in k && ':' !in v;
    SplitPair(k, v, ':');
  }

  lemma TerminatedChars(ts: seq<string>)
    requires RowOk(ts)
    ensures Printable(Terminated(ts, ','))
    ensures '{' !in Terminated(ts, ',') && '}' !in Terminated(ts, ',')
    decreases |ts|
  {
    if |ts| > 0 {
      TerminatedChars(ts[1..]);
      assert Terminated(ts, ',') == ts[0] + [','] + Terminated(ts[1..], ',');
    }
  }

  /** A non-empty data row the saver writes splits back into its tokens. */
  lemma RowLineText(row: seq<string>)
    requires RowOk(row) && |row| > 0
    ensures Split(Trim(StripWhitespace(Terminated(row, ','))), ',') == row
    ensures Terminated(row, ',') != ""
    ensures !Contains(Terminated(row, ','), "{") && !Contains(Terminated(row, ','), "};")
  {
    var line := Terminated(row, ',');
    TerminatedChars(row);
    NoBraces(line);
    assert line == row[0] + [','] + Terminated(row[1..], ',');
    assert NoWhitespace(line);
    StripWhitespaceKeeps(line);
    SplitTerminated(row, ',');
  }

  // ---------------------------------------------------------------------
  // Single lines, as steps of the loader
  // ---------------------------------------------------------------------

  /** Inside a block, a step that leaves the depth above 0 only replaces
      the block's locals. */
  lemma StepInBlock(st: State, b: Block, line: string)
    requires st.mode == InComponents(b) && b.depth >= 1 && Nested(b)
    requires ComponentsStep(b, line).Ok? && ComponentsStep(b, line).value.depth != 0
    ensures Step(st, line) == Ok(st.(mode := InComponents(ComponentsStep(b, line).value)))
  {
  }

  /** `h {` opens a segment with header h. */
  lemma OpenLine(st: State, b: Block, h: string)
    requires st.mode == InComponents(b) && b.depth >= 1 && Nested(b)
    requires NoWhitespace(h)
    ensures Step(st, h + " {") == Ok(st.(mode := InComponents(
      if b.classpath.None? then b.(depth := b.depth + 1, classpath := Some(h))
      else b.(depth := b.depth + 1, subsection := Some(h)))))
  {
    OpenLineText(h);
    StepInBlock(st, b, h + " {");
  }

  /** `};` at depth 2 stores the open component. */
  lemma CloseComponentLine(st: State, b: Block)
    requires st.mode == InComponents(b) && b.depth == 2 && Nested(b)
    ensures Step(st, "};") == Ok(st.(mode := InComponents(
      b.(depth := 1, classpath := None, fields := [],
         pending := b.pending + [Descriptor(b.classpath.value, b.fields)]))))
  {
    CloseLineText();
    StepInBlock(st, b, "};");
  }

  /** `};` at depth 3 stores the open subsection. */
  lemma CloseSectionLine(st: State, b: Block)
    requires st.mode == InComponents(b) && b.depth == 3 && Nested(b) && b.subsection.Some?
    ensures Step(st, "};") == Ok(st.(mode := InComponents(
      b.(depth := 2, subsection := None, lines := [],
         sections := b.sections + [Section(b.subsection.value, b.lines)]))))
  {
    CloseLineText();
    StepInBlock(st, b, "};");
  }

  /** `};` at depth 1 ends the block: its keys all receive the shared list. */
  lemma CloseBlockLine(st: State, b: Block)
    requires st.mode == InComponents(b) && b.depth == 1 && Nested(b) && b.subsection.None?
    ensures Step(st, "};") == Ok(st.(components := st.components + Flush(b.pending, b.sections), mode := TopLevel))
  {
    CloseLineText();
  }

  /** A `key: value;` line appends the pair to the open component's fields. */
  lemma FieldComponentsStep(b: Block, f: Field)
    requires b.depth >= 1 && Nested(b)
    requires b.classpath.Some? && b.subsection.None?
    requires FieldOk(f)
    ensures ComponentsStep(b, FieldString(f) + ";") == Ok(b.(fields := b.fields + [f]))
  {
    assert FieldString(f) + ";" == f.key + ": " + f.value + ";";
    FieldLineShape(f.key, f.value);
    FieldLineText(f.key, f.value);
  }

  lemma FieldLine(st: State, b: Block, f: Field)
    requires st.mode == InComponents(b) && b.depth >= 1 && Nested(b)
    requires b.classpath.Some? && b.subsection.None?
    requires FieldOk(f)
    ensures Step(st, FieldString(f) + ";") == Ok(st.(mode := InComponents(b.(fields := b.fields + [f]))))
  {
    FieldComponentsStep(b, f);
    StepInBlock(st, b, FieldString(f) + ";");
  }

  /** A data row inside a subsection appends its tokens to the section's lines. */
  lemma RowComponentsStep(b: Block, row: seq<string>)
    requires b.depth >= 1 && Nested(b)
    requires b.subsection.Some?
    requires RowOk(row) && |row| > 0
    ensures ComponentsStep(b, Terminated(row, ',')) == Ok(b.(lines := b.lines + row))
  {
    RowLineText(row);
  }

  lemma RowLine(st: State, b: Block, row: seq<string>)
    requires st.mode == InComponents(b) && b.depth >= 1 && Nested(b)
    requires b.subsection.Some?
    requires RowOk(row)
    ensures Step(st, Terminated(row, ',')) == Ok(st.(mode := InComponents(b.(lines := b.lines + row))))
  {
    if |row| == 0 {
      EmptyLineNeutral(st);
      assert b.lines + row == b.lines;
      assert b.(lines := b.lines) == b;
    } else {
      RowComponentsStep(b, row);
      StepInBlock(st, b, Terminated(row, ','));
    }
  }

  // ---------------------------------------------------------------------
  // The text the saver writes, line by line
  // ---------------------------------------------------------------------

  function FieldLines(fs: seq<Field>): (r: seq<string>)
    ensures |r| == |fs|
    ensures forall i :: 0 <= i < |r| ==> r[i] == FieldString(fs[i]) + ";"
  {
    seq(|fs|, i requires 0 <= i < |fs| => FieldString(fs[i]) + ";")
  }

  function SectionLines(s: SectionSpec): seq<string> {
    [s.name + " {"] + RowTexts(s.rows) + ["};"]
  }

  function SectionSegments(ss: seq<SectionSpec>): (r: seq<seq<string>>)
    ensures |r| == |ss|
    ensures forall i :: 0 <= i < |r| ==> r[i] == SectionLines(ss[i])
  {
    seq(|ss|, i requires 0 <= i < |ss| => SectionLines(ss[i]))
  }

  function SectionsLines(ss: seq<SectionSpec>): seq<string> {
    Concat(SectionSegments(ss))
  }

  /** The blank pair between a component's fields and its sections. */
  function BlankLines(c: ComponentSpec): seq<string> {
    if |c.sections| > 0 then ["", ""] else []
  }

  function ComponentLines(c: ComponentSpec): seq<string> {
    [c.classpath + " {"] + FieldLines(c.fields) + BlankLines(c) + SectionsLines(c.sections) + ["};"]
  }

  function ComponentSegments(cs: seq<ComponentSpec>): (r: seq<seq<string>>)
    ensures |r| == |cs|
    ensures forall i :: 0 <= i < |r| ==> r[i] == ComponentLines(cs[i])
  {
    seq(|cs|, i requires 0 <= i < |cs| => ComponentLines(cs[i]))
  }

  function ComponentsLines(cs: seq<ComponentSpec>): seq<string> {
    Concat(ComponentSegments(cs))
  }

  function PreambleLines(name: string): seq<string> {
    ["EntityData {", "Name: " + name + ";", "};", "Components {"]
  }

  // ---------------------------------------------------------------------
  // The writer's calls, rendered, are those lines
  // ---------------------------------------------------------------------

  lemma RenderFields(fs: seq<Field>)
    ensures RenderAll(FieldEvents(FieldStrings(fs))) == FieldLines(fs)
  {
  }

  lemma RenderRows(rows: seq<seq<string>>)
    ensures RenderAll(DataEvents(RowTexts(rows))) == RowTexts(rows)
  {
  }

  lemma RenderSaver(s: SectionSpec)
    ensures RenderAll(SaverEvents(SaverOf(s))) == SectionLines(s)
  {
    var f := SaverOf(s);
    RenderAllAppend([Open(s.name)], DataEvents(f.data));
    RenderAllAppend([Open(s.name)] + DataEvents(f.data), [Close]);
    RenderRows(s.rows);
  }

  lemma {:induction false} RenderSavers(ss: seq<SectionSpec>)
    ensures RenderAll(SaversEvents(Savers(ss))) == SectionsLines(ss)
    decreases |ss|
  {
    if |ss| > 0 {
      var fs := Savers(ss);
      assert fs[1..] == Savers(ss[1..]);
      assert SaversEvents(fs) == SaverEvents(fs[0]) + SaversEvents(fs[1..]);
      RenderAllAppend(SaverEvents(fs[0]), SaversEvents(fs[1..]));
      RenderSaver(ss[0]);
      RenderSavers(ss[1..]);
      ConcatCons(SectionSegments(ss));
      assert SectionSegments(ss)[1..] == SectionSegments(ss[1..]);
    } else {
      assert SectionSegments(ss) == [];
    }
  }

  /** The events of one component segment, part by part. */
  lemma ComponentEventsParts(c: ComponentSpec)
    ensures ComponentEvents(c.classpath, SavableOf(c))
         == [Open(c.classpath)] + FieldEvents(FieldStrings(c.fields))
          + (if |c.sections| > 0 then [Blank, Blank] else []) + SaversEvents(Savers(c.sections)) + [Close]
  {
  }

  lemma RenderOne(e: Event)
    ensures RenderAll([e]) == [Render(e)]
  {
  }

  lemma RenderBlanks(c: ComponentSpec)
    ensures RenderAll(if |c.sections| > 0 then [Blank, Blank] else []) == BlankLines(c)
  {
  }

  lemma RenderComponent(c: ComponentSpec)
    ensures RenderAll(ComponentEvents(c.classpath, SavableOf(c))) == ComponentLines(c)
  {
    var open: seq<Event> := [Open(c.classpath)];
    var fields := FieldEvents(FieldStrings(c.fields));
    var blanks: seq<Event> := if |c.sections| > 0 then [Blank, Blank] else [];
    var savers := SaversEvents(Savers(c.sections));
    var close: seq<Event> := [Close];
    ComponentEventsParts(c);
    assert RenderAll(open + fields + blanks + savers + close)
        == RenderAll(open) + RenderAll(fields) + RenderAll(blanks) + RenderAll(savers) + RenderAll(close) by {
      RenderAllAppend(open + fields + blanks + savers, close);
      RenderAllAppend(open + fields + blanks, savers);
      RenderAllAppend(open + fields, blanks);
      RenderAllAppend(open, fields);
    }
    RenderOne(Open(c.classpath));
    RenderOne(Close);
    RenderFields(c.fields);
    RenderSavers(c.sections);
    RenderBlanks(c);
  }

  lemma {:induction false} RenderComponents(cs: seq<ComponentSpec>)
    ensures RenderAll(ComponentsEvents(ClassNames(cs), Savables(cs))) == ComponentsLines(cs)
    decreases |cs|
  {
    if |cs| > 0 {
      var rest := cs[1..];
      assert ClassNames(cs)[1..] == ClassNames(rest);
      assert Savables(cs)[1..] == Savables(rest);
      var head := ComponentEvents(cs[0].classpath, SavableOf(cs[0]));
      var tail := ComponentsEvents(ClassNames(rest), Savables(rest));
      assert ComponentsEvents(ClassNames(cs), Savables(cs)) == head + tail;
      RenderAllAppend(head, tail);
      RenderComponent(cs[0]);
      RenderComponents(rest);
      ConcatCons(ComponentSegments(cs));
      assert ComponentSegments(cs)[1..] == ComponentSegments(rest);
    } else {
      assert ComponentSegments(cs) == [];
    }
  }

  lemma RenderPreamble(name: string)
    ensures RenderAll(Preamble(name)) == PreambleLines(name)
  {
    var r := RenderAll(Preamble(name));
    assert |r| == 4;
    assert r[0] == "EntityData {" && r[1] == "Name: " + name + ";" && r[2] == "};" && r[3] == "Components {";
  }

  lemma SaveEventsParts(name: string, cs: seq<ComponentSpec>)
    ensures Save(name, ClassNames(cs), Savables(cs))
         == Saved(Preamble(name) + ComponentsEvents(ClassNames(cs), Savables(cs)) + [Close])
  {
  }

  lemma RenderThree(a: seq<Event>, b: seq<Event>, c: seq<Event>)
    ensures RenderAll(a + b + c) == RenderAll(a) + RenderAll(b) + RenderAll(c)
  {
    RenderAllAppend(a + b, c);
    RenderAllAppend(a, b);
  }

  lemma RenderSavedEvents(name: string, cs: seq<ComponentSpec>)
    ensures RenderAll(Preamble(name) + ComponentsEvents(ClassNames(cs), Savables(cs)) + [Close])
         == PreambleLines(name) + ComponentsLines(cs) + ["};"]
  {
    var pre, body, close := Preamble(name), ComponentsEvents(ClassNames(cs), Savables(cs)), [Close];
    RenderComponents(cs);
    RenderPreamble(name);
    RenderOne(Close);
    RenderThree(pre, body, close);
  }

  lemma RenderSave(name: string, cs: seq<ComponentSpec>)
    ensures Save(name, ClassNames(cs), Savables(cs)).Saved?
    ensures RenderAll(Save(name, ClassNames(cs), Savables(cs)).events)
         == PreambleLines(name) + ComponentsLines(cs) + ["};"]
  {
    SaveEventsParts(name, cs);
    RenderSavedEvents(name, cs);
  }

  // ---------------------------------------------------------------------
  // Runs of lines
  // ---------------------------------------------------------------------

  /** A field line after `done` appends its pair. */
  lemma FieldStepAt(s: State, c: Block, b: Block, done: seq<Field>, f: Field)
    requires s.mode == InComponents(c) && c.depth >= 1 && Nested(c)
    requires c.classpath.Some? && c.subsection.None?
    requires c.fields == b.fields + done
    requires FieldOk(f)
    ensures Step(s, FieldString(f) + ";") == Ok(s.(mode := InComponents(c.(fields := b.fields + (done + [f])))))
  {
    FieldLine(s, c, f);
    AppendAssoc(b.fields, done, [f]);
  }

  /** A component's field lines append its pairs, in order. */
  lemma RunFieldLines(st: State, b: Block, fs: seq<Field>)
    requires st.mode == InComponents(b) && b.depth >= 1 && Nested(b)
    requires b.classpath.Some? && b.subsection.None?
    requires forall i :: 0 <= i < |fs| ==> FieldOk(fs[i])
    ensures Run(st, FieldLines(fs)) == Ok(st.(mode := InComponents(b.(fields := b.fields + fs))))
  {
    var sts := seq(|fs| + 1, i requires 0 <= i <= |fs| => st.(mode := InComponents(b.(fields := b.fields + fs[..i]))));
    var lines := FieldLines(fs);
    forall i | 0 <= i < |lines|
      ensures Step(sts[i], lines[i]) == Ok(sts[i + 1])
    {
      FieldStepAt(sts[i], b.(fields := b.fields + fs[..i]), b, fs[..i], fs[i]);
      PrefixSnoc(fs, i);
    }
    assert sts[0] == st by {
      assert fs[..0] == [] && b.fields + [] == b.fields;
    }
    assert sts[|lines|] == st.(mode := InComponents(b.(fields := b.fields + fs))) by {
      assert fs[..|fs|] == fs;
    }
    RunThrough(sts, lines);
  }

  /** A data row after `done` appends its tokens. */
  lemma RowStepAt(s: State, c: Block, b: Block, done: seq<string>, row: seq<string>)
    requires s.mode == InComponents(c) && c.depth >= 1 && Nested(c)
    requires c.subsection.Some?
    requires c.lines == b.lines + done
    requires RowOk(row)
    ensures Step(s, Terminated(row, ',')) == Ok(s.(mode := InComponents(c.(lines := b.lines + (done + row)))))
  {
    RowLine(s, c, row);
    AppendAssoc(b.lines, done, row);
  }

  /** A section's data rows append all their tokens, in order. */
  lemma RunRowLines(st: State, b: Block, rows: seq<seq<string>>)
    requires st.mode == InComponents(b) && b.depth >= 1 && Nested(b)
    requires b.subsection.Some?
    requires forall i :: 0 <= i < |rows| ==> RowOk(rows[i])
    ensures Run(st, RowTexts(rows)) == Ok(st.(mode := InComponents(b.(lines := b.lines + Concat(rows)))))
  {
    var sts := seq(|rows| + 1, i requires 0 <= i <= |rows| => st.(mode := InComponents(b.(lines := b.lines + Concat(rows[..i])))));
    var lines := RowTexts(rows);
    forall i | 0 <= i < |lines|
      ensures Step(sts[i], lines[i]) == Ok(sts[i + 1])
    {
      RowStepAt(sts[i], b.(lines := b.lines + Concat(rows[..i])), b, Concat(rows[..i]), rows[i]);
      ConcatSnoc(rows, i);
    }
    assert sts[0] == st by {
      assert rows[..0] == [] && b.lines + [] == b.lines;
    }
    assert sts[|lines|] == st.(mode := InComponents(b.(lines := b.lines + Concat(rows)))) by {
      assert rows[..|rows|] == rows;
    }
    RunThrough(sts, lines);
  }

  /** One section segment inside an open component adds its section to the
      shared list. */
  lemma RunSection(st: State, b: Block, s: SectionSpec)
    requires st.mode == InComponents(b) && b.depth == 2 && Nested(b)
    requires b.subsection.None? && b.lines == []
    requires SectionOk(s)
    ensures Run(st, SectionLines(s)) == Ok(st.(mode := InComponents(b.(sections := b.sections + [SectionOf(s)]))))
  {
    OpenLine(st, b, s.name);
    var b1 := b.(depth := 3, subsection := Some(s.name));
    var st1 := st.(mode := InComponents(b1));
    assert SectionLines(s) == [s.name + " {"] + (RowTexts(s.rows) + ["};"]);
    RunCons(st, s.name + " {", RowTexts(s.rows) + ["};"], st1);

    RunRowLines(st1, b1, s.rows);
    var b2 := b1.(lines := Concat(s.rows));
    var st2 := st.(mode := InComponents(b2));
    assert b1.lines + Concat(s.rows) == Concat(s.rows);
    RunThen(st1, RowTexts(s.rows), ["};"], st2);

    CloseSectionLine(st2, b2);
    RunOne(st2, "};");
  }

  /** A section segment after the sections `done` appends its section. */
  lemma SectionStepAt(s: State, c: Block, b: Block, done: seq<Section>, x: SectionSpec)
    requires s.mode == InComponents(c) && c.depth == 2 && Nested(c)
    requires c.subsection.None? && c.lines == []
    requires c.sections == b.sections + done
    requires SectionOk(x)
    ensures Run(s, SectionLines(x)) == Ok(s.(mode := InComponents(c.(sections := b.sections + (done + [SectionOf(x)])))))
  {
    RunSection(s, c, x);
    AppendAssoc(b.sections, done, [SectionOf(x)]);
  }

  /** A component's section segments append its sections, in order. */
  lemma RunSections(st: State, b: Block, ss: seq<SectionSpec>)
    requires st.mode == InComponents(b) && b.depth == 2 && Nested(b)
    requires b.subsection.None? && b.lines == []
    requires forall i :: 0 <= i < |ss| ==> SectionOk(ss[i])
    ensures Run(st, SectionsLines(ss)) == Ok(st.(mode := InComponents(b.(sections := b.sections + SectionsOf(ss)))))
  {
    var secs := SectionsOf(ss);
    var sts := seq(|ss| + 1, i requires 0 <= i <= |ss| => st.(mode := InComponents(b.(sections := b.sections + secs[..i]))));
    var segs := SectionSegments(ss);
    forall i | 0 <= i < |segs|
      ensures Run(sts[i], segs[i]) == Ok(sts[i + 1])
    {
      SectionStepAt(sts[i], b.(sections := b.sections + secs[..i]), b, secs[..i], ss[i]);
      PrefixSnoc(secs, i);
    }
    assert sts[0] == st by {
      assert secs[..0] == [] && b.sections + [] == b.sections;
    }
    assert sts[|segs|] == st.(mode := InComponents(b.(sections := b.sections + secs))) by {
      assert secs[..|ss|] == secs;
    }
    RunChain(sts, segs);
  }

  /** The blank pair is skipped. */
  lemma RunBlankLines(st: State, c: ComponentSpec, rest: seq<string>)
    requires Valid(st)
    ensures Run(st, BlankLines(c) + rest) == Run(st, rest)
  {
    EmptyLineNeutral(st);
    if |c.sections| > 0 {
      assert BlankLines(c) + rest == [""] + ([""] + rest);
      RunCons(st, "", [""] + rest, st);
      RunCons(st, "", rest, st);
    } else {
      assert BlankLines(c) + rest == rest;
    }
  }

  /** One component segment at block level adds its key to the pending keys
      and its sections to the shared list. */
  lemma RunComponent(st: State, b: Block, c: ComponentSpec)
    requires st.mode == InComponents(b) && b.depth == 1 && Nested(b)
    requires b.subsection.None? && b.lines == [] && b.fields == []
    requires ComponentOk(c)
    ensures Run(st, ComponentLines(c))
         == Ok(st.(mode := InComponents(b.(sections := b.sections + SectionsOf(c.sections),
                                            pending := b.pending + [Descriptor(c.classpath, c.fields)]))))
  {
    var tail := SectionsLines(c.sections) + ["};"];
    assert ComponentLines(c) == [c.classpath + " {"] + (FieldLines(c.fields) + (BlankLines(c) + tail));

    OpenLine(st, b, c.classpath);
    var b1 := b.(depth := 2, classpath := Some(c.classpath));
    var st1 := st.(mode := InComponents(b1));
    RunCons(st, c.classpath + " {", FieldLines(c.fields) + (BlankLines(c) + tail), st1);

    RunFieldLines(st1, b1, c.fields);
    var b2 := b1.(fields := c.fields);
    var st2 := st.(mode := InComponents(b2));
    assert b1.fields + c.fields == c.fields;
    RunThen(st1, FieldLines(c.fields), BlankLines(c) + tail, st2);
    RunBlankLines(st2, c, tail);

    RunSections(st2, b2, c.sections);
    var b3 := b2.(sections := b.sections + SectionsOf(c.sections));
    var st3 := st.(mode := InComponents(b3));
    RunThen(st2, SectionsLines(c.sections), ["};"], st3);

    CloseComponentLine(st3, b3);
    RunOne(st3, "};");
  }

  /** A component segment after `doneSecs` and `doneKeys` appends its
      sections and its key. */
  lemma ComponentStepAt(s: State, c: Block, b: Block, doneSecs: seq<Section>, doneKeys: seq<Descriptor>, x: ComponentSpec)
    requires s.mode == InComponents(c) && c.depth == 1 && Nested(c)
    requires c.subsection.None? && c.lines == [] && c.fields == []
    requires c.sections == b.sections + doneSecs && c.pending == b.pending + doneKeys
    requires ComponentOk(x)
    ensures Run(s, ComponentLines(x))
         == Ok(s.(mode := InComponents(c.(sections := b.sections + (doneSecs + SectionsOf(x.sections)),
                                           pending := b.pending + (doneKeys + [Descriptor(x.classpath, x.fields)])))))
  {
    RunComponent(s, c, x);
    AppendAssoc(b.sections, doneSecs, SectionsOf(x.sections));
    AppendAssoc(b.pending, doneKeys, [Descriptor(x.classpath, x.fields)]);
  }

  /** The component segments of a block: every key pending, every section on
      the shared list. */
  lemma RunComponents(st: State, b: Block, cs: seq<ComponentSpec>)
    requires st.mode == InComponents(b) && b.depth == 1 && Nested(b)
    requires b.subsection.None? && b.lines == [] && b.fields == []
    requires forall i :: 0 <= i < |cs| ==> ComponentOk(cs[i])
    ensures Run(st, ComponentsLines(cs))
         == Ok(st.(mode := InComponents(b.(sections := b.sections + AllSections(cs),
                                            pending := b.pending + Descriptors(cs)))))
  {
    var lists := SectionLists(cs);
    var keys := Descriptors(cs);
    var sts := seq(|cs| + 1, i requires 0 <= i <= |cs| =>
      st.(mode := InComponents(b.(sections := b.sections + Concat(lists[..i]), pending := b.pending + keys[..i]))));
    var segs := ComponentSegments(cs);
    forall i | 0 <= i < |segs|
      ensures Run(sts[i], segs[i]) == Ok(sts[i + 1])
    {
      ComponentStepAt(sts[i], b.(sections := b.sections + Concat(lists[..i]), pending := b.pending + keys[..i]),
                      b, Concat(lists[..i]), keys[..i], cs[i]);
      ConcatSnoc(lists, i);
      PrefixSnoc(keys, i);
    }
    assert sts[0] == st by {
      assert lists[..0] == [] && keys[..0] == [];
      assert b.sections + [] == b.sections && b.pending + [] == b.pending;
    }
    assert sts[|segs|] == st.(mode := InComponents(b.(sections := b.sections + AllSections(cs),
                                                      pending := b.pending + Descriptors(cs)))) by {
      assert lists[..|cs|] == lists && keys[..|cs|] == keys;
    }
    RunChain(sts, segs);
  }

  /** Stripping `a + b + c` where only b holds whitespace, and only that. */
  lemma StripGap(a: string, b: string, c: string)
    requires NoWhitespace(a) && NoWhitespace(c) && StripWhitespace(b) == ""
    ensures StripWhitespace(a + b + c) == a + c
  {
    StripWhitespaceAppend(a + b, c);
    StripWhitespaceAppend(a, b);
    StripWhitespaceKeeps(a);
    StripWhitespaceKeeps(c);
    assert a + "" == a;
  }

  lemma NameKeyClean()
    ensures NoWhitespace("Name:") && StripWhitespace(" ") == ""
  {
    assert " "[1..] == "";
  }

  lemma StripNameLine(name: string)
    requires NoWhitespace(name)
    ensures StripWhitespace("Name: " + name + ";") == "Name:" + name + ";"
  {
    var key: string := "Name:";
    var rest := name + ";";
    assert NoWhitespace(rest) by {
      assert forall i :: 0 <= i < |name| ==> rest[i] == name[i];
    }
    NameKeyClean();
    assert "Name: " == key + " ";
    AppendAssoc(key + " ", name, ";");
    StripGap(key, " ", rest);
    AppendAssoc(key, name, ";");
  }

  /** The Name line, cleaned up as the loader does, is `Name:` and the name. */
  lemma NameLineText(name: string)
    requires NameOk(name)
    ensures RemoveChar(StripWhitespace("Name: " + name + ";"), ';') == "Name:" + name
  {
    StripNameLine(name);
    assert ';' !in "Name:" + name;
    RemoveTrailingSemicolon("Name:" + name);
  }

  lemma NameLineStep(st: State, name: string)
    requires st.mode == InEntityData
    requires NameOk(name)
    ensures Step(st, "Name: " + name + ";") == Ok(st.(name := name))
  {
    var l1 := "Name: " + name + ";";
    assert l1 == "Name: " + (name + ";");
    assert '}' !in l1;
    MissingCharNotContained(l1, "};", '}');
    ContainsOccurrence("", "Name", ": " + name + ";");
    assert "" + "Name" + (": " + name + ";") == l1;
    NameLineText(name);
    assert ("Name:" + name)[5..] == name;
  }

  lemma EntityDataLineStep()
    ensures Step(Initial, "EntityData {") == Ok(Initial.(mode := InEntityData))
  {
    ContainsOccurrence("", "EntityData", " {");
    assert "" + "EntityData" + " {" == "EntityData {";
  }

  lemma CloseDataLineStep(st: State)
    requires st.mode == InEntityData
    ensures Step(st, "};") == Ok(st.(mode := TopLevel))
  {
    CloseLineText();
    assert !Contains("};", "Components");
  }

  lemma ComponentsLineStep(st: State)
    requires st.mode == TopLevel
    ensures Step(st, "Components {") == Ok(st.(mode := InComponents(FreshBlock)))
  {
    MissingCharNotContained("Components {", "EntityData", 'E');
    ContainsOccurrence("", "Components", " {");
    assert "" + "Components" + " {" == "Components {";
  }

  /** The EntityData segment sets the name; the Components line then starts
      a fresh block. */
  lemma RunPreamble(name: string)
    requires NameOk(name)
    ensures Run(Initial, PreambleLines(name)) == Ok(State(name, [], InComponents(FreshBlock)))
  {
    var s1 := Initial.(mode := InEntityData);
    var s2 := s1.(name := name);
    var s3 := s2.(mode := TopLevel);
    var s4 := State(name, [], InComponents(FreshBlock));
    EntityDataLineStep();
    NameLineStep(s1, name);
    CloseDataLineStep(s2);
    ComponentsLineStep(s3);
    RunThrough([Initial, s1, s2, s3, s4], PreambleLines(name));
  }

  /** The component lines and the closing line, run inside the Components
      block the preamble opens. */
  lemma RunSavedBody(name: string, cs: seq<ComponentSpec>)
    requires forall i :: 0 <= i < |cs| ==> ComponentOk(cs[i])
    ensures Run(State(name, [], InComponents(FreshBlock)), ComponentsLines(cs) + ["};"])
         == Ok(State(name, Flush(Descriptors(cs), AllSections(cs)), TopLevel))
  {
    var st := State(name, [], InComponents(FreshBlock));
    var b := FreshBlock.(sections := AllSections(cs), pending := Descriptors(cs));
    var st1 := st.(mode := InComponents(b));
    RunComponents(st, FreshBlock, cs);
    assert FreshBlock.sections + AllSections(cs) == AllSections(cs);
    assert FreshBlock.pending + Descriptors(cs) == Descriptors(cs);
    RunThen(st, ComponentsLines(cs), ["};"], st1);
    CloseBlockLine(st1, b);
    RunOne(st1, "};");
    var flushed := Flush(Descriptors(cs), AllSections(cs));
    assert st1.components + flushed == flushed;
    assert st1.(components := flushed, mode := TopLevel) == State(name, flushed, TopLevel);
  }

  /** The saved file's lines, run from the start: the name is set and the
      block's entries are flushed with the shared list. */
  lemma RunSavedFile(name: string, cs: seq<ComponentSpec>)
    requires NameOk(name)
    requires forall i :: 0 <= i < |cs| ==> ComponentOk(cs[i])
    ensures Run(Initial, PreambleLines(name) + ComponentsLines(cs) + ["};"])
         == Ok(State(name, Flush(Descriptors(cs), AllSections(cs)), TopLevel))
  {
    var st := State(name, [], InComponents(FreshBlock));
    RunPreamble(name);
    RunSavedBody(name, cs);
    AppendAssoc(PreambleLines(name), ComponentsLines(cs), ["};"]);
    RunThen(Initial, PreambleLines(name), ComponentsLines(cs) + ["};"], st);
  }

  /** Parse after write. For a name and components the loader can read back
      unchanged, the saved file parses to a template with the saved name and,
      in order, one entry per component with its class path and its field
      pairs; each entry's sections are all sections of all components, in
      file order, since the block's components share one list. */
  lemma SaveThenParse(name: string, cs: seq<ComponentSpec>)
    requires NameOk(name)
    requires forall i :: 0 <= i < |cs| ==> ComponentOk(cs[i])
    ensures Save(name, ClassNames(cs), Savables(cs)).Saved?
    ensures Parse(RenderAll(Save(name, ClassNames(cs), Savables(cs)).events))
         == Ok(Template(name, Flush(Descriptors(cs), AllSections(cs))))
  {
    RenderSave(name, cs);
    RunSavedFile(name, cs);
  }
}
