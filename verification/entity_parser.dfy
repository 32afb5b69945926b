/** The `.entity` line parser of EbonEntities.load, as a fold over the file's
    lines with an explicit state record standing for the loop's locals. */
module EntityParser {
  import opened Wrappers
  import opened JavaStrings
  import opened EntityModel

  /** The unchecked exceptions the read loop can throw; none is caught by the
      loader, so each escapes `load`. */
  datatype Failure =
    | TruncatedEntityData           // readLine() returned null inside EntityData: NullPointerException
    | NameTooShort(line: string)    // substring(5) of a Name line with fewer than five characters left
    | MalformedField(line: string)  // split(":") of a field line gave fewer than two pieces

  /** The locals of one Components block. `sections` is created once per
      block and never replaced, so every component put into the map while the
      block runs refers to this one list; `pending` holds those components'
      keys, and they receive the list's final contents when the block ends. */
  datatype Block = Block(
    depth: int,                  // fileNestation
    classpath: Option<string>,   // componentClasspaths
    subsection: Option<string>,  // componentSubsection
    fields: seq<Field>,          // individualData
    lines: seq<string>,          // sectionLines
    sections: seq<Section>,      // the shared sections list
    pending: seq<Descriptor>)    // keys already put, all mapped to `sections`

  /** Which loop of the loader the next line is read by. */
  datatype Mode = TopLevel | InEntityData | InComponents(block: Block)

  /** The loader's state between two lines: the entity name read so far, the
      entries of finished Components blocks, and the current loop. */
  datatype State = State(name: string, components: seq<Component>, mode: Mode)

  /** The locals as a Components block starts: depth 1, nothing open. */
  const FreshBlock: Block := Block(1, None, None, [], [], [], [])

  const Initial: State := State(UNNAMED, [], TopLevel)

  /** Inside a block a component is open exactly from depth 2 on; the proof
      of this is what lets a close back to depth 1 store a class path. */
  predicate Nested(b: Block) {
    b.depth >= 2 <==> b.classpath.Some?
  }

  predicate Valid(st: State) {
    st.mode.InComponents? ==> st.mode.block.depth >= 1 && Nested(st.mode.block)
  }

  /** The header of an opening line: the line without whitespace, minus its
      last character (for `Vertices {` that is `Vertices`). */
  function Header(line: string): string
    requires Contains(line, "{")
  {
    ContainsChar(line, '{');
    StripWhitespaceChars(line);
    var t := StripWhitespace(line);
    assert '{' in t;
    t[..|t| - 1]
  }

  /** A Name line without whitespace and `;`; the name is what follows its
      first five characters. */
  function CleanName(line: string): string {
    RemoveChar(StripWhitespace(line), ';')
  }

  /** The pieces of a field line: without whitespace and `;`, trimmed, split
      on `:`. */
  function FieldKeys(line: string): seq<string> {
    Split(Trim(RemoveChar(StripWhitespace(line), ';')), ':')
  }

  /** The entries of a finished block: every pending key mapped to the same
      sections list. */
  function Flush(pending: seq<Descriptor>, sections: seq<Section>): (r: seq<Component>)
    ensures |r| == |pending|
    ensures forall i :: 0 <= i < |r| ==> r[i].descriptor == pending[i]
    ensures forall i, j :: 0 <= i < |r| && 0 <= j < |r| ==> r[i].sections == r[j].sections
    ensures forall i :: 0 <= i < |r| ==> r[i].sections == sections
  {
    seq(|pending|, i requires 0 <= i < |pending| => Component(pending[i], sections))
  }

  /** One line of the inner Components loop. An opening line names the
      component when none is open, else the subsection; a closing line that
      brings the depth back to 1 stores the component, any other closing line
      stores the open subsection; other non-empty lines are field lines while
      no subsection is open and data lines inside one. */
  function ComponentsStep(b: Block, line: string): (r: Result<Block, Failure>)
    requires b.depth >= 1 && Nested(b)
    ensures r.Ok? ==> Nested(r.value)
    ensures r.Ok? ==> r.value.depth == b.depth + (if Contains(line, "{") then 1 else if Contains(line, "};") then -1 else 0)
    ensures r.Ok? ==> b.sections <= r.value.sections && b.pending <= r.value.pending
    ensures r.Err? ==> r.error == MalformedField(line)
    ensures r.Err? ==> !Contains(line, "{") && !Contains(line, "};") && b.classpath.Some? && b.subsection.None?
  {
    if Contains(line, "{") then
      var h := Header(line);
      if b.classpath.None? then Ok(b.(depth := b.depth + 1, classpath := Some(h)))
      else Ok(b.(depth := b.depth + 1, subsection := Some(h)))
    else if Contains(line, "};") then
      var d := b.depth - 1;
      if d == 1 then
        Ok(b.(depth := d, classpath := None, fields := [],
              pending := b.pending + [Descriptor(b.classpath.value, b.fields)]))
      else if b.subsection.Some? then
        Ok(b.(depth := d, subsection := None, lines := [],
              sections := b.sections + [Section(b.subsection.value, b.lines)]))
      else
        Ok(b.(depth := d))
    else if line == "" then
      Ok(b)
    else if b.classpath.Some? && b.subsection.None? then
      var keys := FieldKeys(line);
      if |keys| < 2 then Err(MalformedField(line))
      else Ok(b.(fields := b.fields + [Field(Trim(keys[0]), Trim(keys[1]))]))
    else if b.subsection.Some? then
      Ok(b.(lines := b.lines + Split(Trim(StripWhitespace(line)), ',')))
    else
      Ok(b)
  }

  /** One line of the loader. At top level a line mentioning EntityData
      starts that block, else one mentioning Components starts that one.
      Inside EntityData a line with `};` ends the block, and that same line
      is then tested for Components; a line mentioning Name sets the name to
      the line without whitespace and `;`, minus its first five characters. */
  function Step(st: State, line: string): (r: Result<State, Failure>)
    requires Valid(st)
    ensures r.Ok? ==> Valid(r.value)
    ensures r.Ok? ==> st.components <= r.value.components
    ensures r.Err? ==> !st.mode.TopLevel?
    ensures st.mode.TopLevel? ==> r.Ok? && r.value.name == st.name
  {
    match st.mode
    case TopLevel =>
      if Contains(line, "EntityData") then Ok(st.(mode := InEntityData))
      else if Contains(line, "Components") then Ok(st.(mode := InComponents(FreshBlock)))
      else Ok(st)
    case InEntityData =>
      if Contains(line, "};") then
        Ok(st.(mode := if Contains(line, "Components") then InComponents(FreshBlock) else TopLevel))
      else if Contains(line, "Name") then
        var s := CleanName(line);
        if |s| < 5 then Err(NameTooShort(line)) else Ok(st.(name := s[5..]))
      else
        Ok(st)
    case InComponents(b) =>
      match ComponentsStep(b, line)
      case Err(e) => Err(e)
      case Ok(b') =>
        if b'.depth == 0 then
          Ok(st.(components := st.components + Flush(b'.pending, b'.sections), mode := TopLevel))
        else
          Ok(st.(mode := InComponents(b')))
  }

  /** The loader's loop over a sequence of lines, stopping at the first
      exception. */
  function Run(st: State, lines: seq<string>): (r: Result<State, Failure>)
    requires Valid(st)
    ensures r.Ok? ==> Valid(r.value)
    ensures r.Ok? ==> st.components <= r.value.components
    decreases |lines|
  {
    if |lines| == 0 then Ok(st)
    else
      match Step(st, lines[0])
      case Err(e) => Err(e)
      case Ok(next) => Run(next, lines[1..])
  }

  /** What happens when readLine() returns null. At top level the template is
      built. Inside EntityData the loop dereferences null. Inside Components
      the field, line and shared sections lists are cleared and the loop
      left, so the block's stored components keep their keys but lose every
      section. */
  function Finish(st: State): (r: Result<Template, Failure>)
    requires Valid(st)
    ensures r.Err? <==> st.mode.InEntityData?
    ensures r.Ok? ==> r.value.name == st.name && st.components <= r.value.components
    ensures r.Ok? && st.mode.InComponents? ==>
              forall i :: |st.components| <= i < |r.value.components| ==> r.value.components[i].sections == []
    ensures st.mode.TopLevel? ==> r == Ok(Template(st.name, st.components))
    ensures st.mode.InComponents? ==>
              r == Ok(Template(st.name, st.components + Flush(st.mode.block.pending, [])))
  {
    match st.mode
    case TopLevel => Ok(Template(st.name, st.components))
    case InEntityData => Err(TruncatedEntityData)
    case InComponents(b) => Ok(Template(st.name, st.components + Flush(b.pending, [])))
  }

  /** The whole file: the lines as read, then end of input. */
  function Parse(lines: seq<string>): Result<Template, Failure> {
    match Run(Initial, lines)
    case Err(e) => Err(e)
    case Ok(st) => Finish(st)
  }

  // ---------------------------------------------------------------------
  // Properties of the fold
  // ---------------------------------------------------------------------

  /** Running over two consecutive chunks of lines is running over the first
      and then, from where it stopped, over the second. */
  lemma {:induction false} RunAppend(st: State, a: seq<string>, b: seq<string>)
    requires Valid(st)
    ensures Run(st, a + b) == (match Run(st, a) case Err(e) => Err(e) case Ok(mid) => Run(mid, b))
    decreases |a|
  {
    if |a| == 0 {
      assert a + b == b;
    } else {
      assert (a + b)[0] == a[0] && (a + b)[1..] == a[1..] + b;
      match Step(st, a[0])
      case Err(e) =>
      case Ok(next) => RunAppend(next, a[1..], b);
    }
  }

  lemma EmptyContainsNothing(p: string)
    requires |p| > 0
    ensures !Contains("", p)
  {
  }

  /** An empty line changes nothing, in any loop. */
  lemma EmptyLineNeutral(st: State)
    requires Valid(st)
    ensures Step(st, "") == Ok(st)
  {
    EmptyContainsNothing("{");
    EmptyContainsNothing("};");
    EmptyContainsNothing("Name");
    EmptyContainsNothing("EntityData");
    EmptyContainsNothing("Components");
  }

  /** Removing an empty line anywhere leaves the parse result unchanged; in
      particular the writer's blank pair between fields and sections is not
      load-bearing. */
  lemma EmptyLineIgnored(a: seq<string>, b: seq<string>)
    ensures Parse(a + [""] + b) == Parse(a + b)
  {
    RunAppend(Initial, a, [""] + b);
    RunAppend(Initial, a, b);
    assert a + [""] + b == a + ([""] + b);
    match Run(Initial, a)
    case Err(e) =>
    case Ok(mid) =>
      EmptyLineNeutral(mid);
      assert ([""] + b)[0] == "" && ([""] + b)[1..] == b;
  }

  /** Without a line mentioning EntityData the name is never set: a parsed
      template is called "unnamed". */
  lemma {:induction false} RunKeepsName(st: State, lines: seq<string>)
    requires Valid(st) && !st.mode.InEntityData?
    requires forall i :: 0 <= i < |lines| ==> !Contains(lines[i], "EntityData")
    ensures Run(st, lines).Ok? ==> Run(st, lines).value.name == st.name && !Run(st, lines).value.mode.InEntityData?
    decreases |lines|
  {
    if |lines| > 0 {
      match Step(st, lines[0])
      case Err(e) =>
      case Ok(next) =>
        assert next.name == st.name && !next.mode.InEntityData?;
        RunKeepsName(next, lines[1..]);
    }
  }

  lemma NameDefaultsToUnnamed(lines: seq<string>)
    requires forall i :: 0 <= i < |lines| ==> !Contains(lines[i], "EntityData")
    ensures Parse(lines).Ok? ==> Parse(lines).value.name == UNNAMED
  {
    RunKeepsName(Initial, lines);
  }

  /** An EntityData block that is never closed makes the loader dereference
      null once the lines run out, unless a Name line fails first. */
  lemma {:induction false} RunStaysInEntityData(st: State, lines: seq<string>)
    requires st.mode.InEntityData?
    requires forall i :: 0 <= i < |lines| ==> !Contains(lines[i], "};")
    ensures Run(st, lines).Ok? ==> Run(st, lines).value.mode.InEntityData?
    decreases |lines|
  {
    if |lines| > 0 {
      match Step(st, lines[0])
      case Err(e) =>
      case Ok(next) => RunStaysInEntityData(next, lines[1..]);
    }
  }

  /** An EntityData block opened at top level, after any lines that leave the
      loader there (the saver's comment lines, say), and never closed makes
      the loader dereference null once the lines run out, unless a Name line
      fails first. */
  lemma TruncatedEntityDataFails(prefix: seq<string>, header: string, rest: seq<string>)
    requires Run(Initial, prefix).Ok? && Run(Initial, prefix).value.mode.TopLevel?
    requires Contains(header, "EntityData")
    requires forall i :: 0 <= i < |rest| ==> !Contains(rest[i], "};")
    ensures Parse(prefix + [header] + rest).Err?
    ensures Run(Initial, prefix + [header] + rest).Ok? ==> Parse(prefix + [header] + rest) == Err(TruncatedEntityData)
  {
    var mid := Run(Initial, prefix).value;
    AppendAssocLines(prefix, [header], rest);
    RunAppend(Initial, prefix, [header] + rest);
    assert ([header] + rest)[0] == header && ([header] + rest)[1..] == rest;
    RunStaysInEntityData(mid.(mode := InEntityData), rest);
  }

  lemma AppendAssocLines(a: seq<string>, b: seq<string>, c: seq<string>)
    ensures a + b + c == a + (b + c)
  {
  }

  // ---------------------------------------------------------------------
  // The EntityData block
  // ---------------------------------------------------------------------

  /** Every Name line among `lines` leaves at least five characters once
      cleaned. */
  predicate NamesLongEnough(lines: seq<string>) {
    forall i :: 0 <= i < |lines| && Contains(lines[i], "Name") ==> |CleanName(lines[i])| >= 5
  }

  predicate NoClose(lines: seq<string>) {
    forall i :: 0 <= i < |lines| ==> !Contains(lines[i], "};")
  }

  /** The name the last Name line among `lines` gives, or `name` when there
      is none: read from the end of the block backwards. */
  function LastName(name: string, lines: seq<string>): string
    requires NamesLongEnough(lines)
    decreases |lines|
  {
    if |lines| == 0 then name
    else
      var last := lines[|lines| - 1];
      if Contains(last, "Name") then CleanName(last)[5..]
      else LastName(name, lines[..|lines| - 1])
  }

  /** Inside EntityData, lines that do not close it change only the name,
      and the last Name line wins. */
  lemma {:induction false} RunNameLines(st: State, lines: seq<string>)
    requires st.mode.InEntityData?
    requires NoClose(lines) && NamesLongEnough(lines)
    ensures Run(st, lines) == Ok(st.(name := LastName(st.name, lines)))
    decreases |lines|
  {
    if |lines| > 0 {
      var init, last := lines[..|lines| - 1], lines[|lines| - 1];
      assert init + [last] == lines;
      assert NoClose(init) && NamesLongEnough(init) by {
        forall i | 0 <= i < |init| ensures init[i] == lines[i] { }
      }
      RunNameLines(st, init);
      RunAppend(st, init, [last]);
      assert !Contains(last, "};");
    }
  }

  /** The first Name line too short for `substring(5)` throws, however the
      block continues. */
  lemma ShortNameFails(st: State, lines: seq<string>, k: nat)
    requires st.mode.InEntityData?
    requires k < |lines| && NoClose(lines[..k + 1]) && NamesLongEnough(lines[..k])
    requires Contains(lines[k], "Name") && |CleanName(lines[k])| < 5
    ensures Run(st, lines) == Err(NameTooShort(lines[k]))
  {
    assert lines[..k + 1][k] == lines[k];
    assert NoClose(lines[..k]) by {
      forall i | 0 <= i < k ensures lines[..k][i] == lines[..k + 1][i] { }
    }
    RunNameLines(st, lines[..k]);
    assert lines[..k] + lines[k..] == lines;
    RunAppend(st, lines[..k], lines[k..]);
    assert lines[k..][0] == lines[k];
  }

  /** A whole EntityData block: the name is the last Name line's, and the
      closing line starts the Components block when it mentions Components. */
  lemma EntityDataBlock(st: State, lines: seq<string>, close: string)
    requires st.mode.InEntityData?
    requires NoClose(lines) && NamesLongEnough(lines)
    requires Contains(close, "};")
    ensures Run(st, lines + [close])
         == Ok(st.(name := LastName(st.name, lines),
                   mode := if Contains(close, "Components") then InComponents(FreshBlock) else TopLevel))
  {
    RunNameLines(st, lines);
    RunAppend(st, lines, [close]);
  }

  // ---------------------------------------------------------------------
  // Field lines
  // ---------------------------------------------------------------------

  /** Inside a component, outside any subsection, a non-empty line that is
      neither an opening nor a closing line throws exactly when it does not
      split into a key and a value. */
  lemma FieldLineFails(b: Block, line: string)
    requires b.depth >= 1 && Nested(b)
    requires b.classpath.Some? && b.subsection.None?
    requires line != "" && !Contains(line, "{") && !Contains(line, "};")
    ensures ComponentsStep(b, line).Err? <==> |FieldKeys(line)| < 2
    ensures ComponentsStep(b, line).Err? ==> ComponentsStep(b, line) == Err(MalformedField(line))
    ensures ComponentsStep(b, line).Ok? ==>
              ComponentsStep(b, line).value.fields == b.fields + [Field(Trim(FieldKeys(line)[0]), Trim(FieldKeys(line)[1]))]
  {
  }

  /** A field line without `:` throws. */
  lemma FieldWithoutColonFails(b: Block, line: string)
    requires b.depth >= 1 && Nested(b)
    requires b.classpath.Some? && b.subsection.None?
    requires line != "" && !Contains(line, "{") && !Contains(line, "};")
    requires ':' !in line
    ensures ComponentsStep(b, line) == Err(MalformedField(line))
  {
    var t := Trim(RemoveChar(StripWhitespace(line), ';'));
    StripWhitespaceChars(line);
    RemoveCharChars(StripWhitespace(line), ';');
    if ':' in t {
      TrimChars(RemoveChar(StripWhitespace(line), ';'), ':');
    }
    assert FieldKeys(line) == [t];
  }

  /** A key, with nothing the loader strips, trims or splits on. */
  predicate BareKey(key: string) {
    forall i :: 0 <= i < |key| ==> key[i] > ' ' && key[i] != ':' && key[i] != ';' && key[i] != '{' && key[i] != '}'
  }

  /** `key:` survives the cleaning unchanged and splits into the key alone. */
  lemma KeyColonPieces(key: string)
    requires key != "" && BareKey(key)
    ensures FieldKeys(key + ":") == [key]
    ensures !Contains(key + ":", "{") && !Contains(key + ":", "};")
  {
    var line := key + ":";
    assert Printable(line) && NoWhitespace(line) && ';' !in line && '{' !in line && '}' !in line by {
      forall i | 0 <= i < |line| ensures line[i] == if i < |key| then key[i] else ':' { }
    }
    MissingCharNotContained(line, "{", '{');
    MissingCharNotContained(line, "};", '}');
    StripWhitespaceKeeps(line);
    RemoveCharKeeps(line, ';');
    assert Terminated([key], ':') == line by {
      assert Terminated([key], ':') == key + [':'] + Terminated([], ':');
    }
    SplitTerminated([key], ':');
  }

  /** A field line `key:` with no value throws. */
  lemma FieldWithoutValueFails(b: Block, key: string)
    requires b.depth >= 1 && Nested(b)
    requires b.classpath.Some? && b.subsection.None?
    requires key != "" && BareKey(key)
    ensures ComponentsStep(b, key + ":") == Err(MalformedField(key + ":"))
  {
    KeyColonPieces(key);
  }
}
