/** EbonEntities.save as the sequence of calls it makes on its segment
    writer. The writer's own text format is not part of this model; `Render`
    below states the rendering that the parse-after-write theorem assumes. */
module EntityWriter {
  import opened Wrappers

  /** One call on the segment writer: beginNewSegment, writeSegmentData,
      enterBlankLine or endSegment. */
  datatype Event = Open(header: string) | Data(text: string) | Blank | Close

  /** An EntitySaverFunction: the name of its section and the data strings
      its writeIntoSection passes to the writer. */
  datatype Saver = Saver(sectionName: string, data: seq<string>)

  /** What an editor component's getSavableValues returns: its field strings
      (each `key: value`, without the `;`) and its section savers. */
  datatype Savable = Savable(values: seq<string>, savers: seq<Saver>)

  /** A finished save, or one cut short by an exception after `partial` had
      been written. */
  datatype SaveOutcome = Saved(events: seq<Event>) | Aborted(partial: seq<Event>)

  /** The final nesting depth after the events, starting at depth d, or None
      if some close has no open segment to end. */
  function Walk(events: seq<Event>, d: nat): Option<nat>
    decreases |events|
  {
    if |events| == 0 then Some(d)
    else match events[0]
      case Open(_) => Walk(events[1..], d + 1)
      case Close => if d == 0 then None else Walk(events[1..], d - 1)
      case _ => Walk(events[1..], d)
  }

  lemma {:induction false} WalkAppend(a: seq<Event>, b: seq<Event>, d: nat)
    ensures Walk(a + b, d) == (match Walk(a, d) case None => None case Some(m) => Walk(b, m))
    decreases |a|
  {
    if |a| == 0 {
      assert a + b == b;
    } else {
      assert (a + b)[0] == a[0] && (a + b)[1..] == a[1..] + b;
      match a[0]
      case Open(_) => WalkAppend(a[1..], b, d + 1);
      case Close => if d > 0 { WalkAppend(a[1..], b, d - 1); }
      case Data(_) => WalkAppend(a[1..], b, d);
      case Blank => WalkAppend(a[1..], b, d);
    }
  }

  /** The data strings of a section, one writeSegmentData each. */
  function DataEvents(xs: seq<string>): (r: seq<Event>)
    ensures |r| == |xs|
    ensures forall i :: 0 <= i < |r| ==> r[i] == Data(xs[i])
  {
    seq(|xs|, i requires 0 <= i < |xs| => Data(xs[i]))
  }

  /** The field strings of a component, each with `;` appended. */
  function FieldEvents(values: seq<string>): (r: seq<Event>)
    ensures |r| == |values|
    ensures forall i :: 0 <= i < |r| ==> r[i] == Data(values[i] + ";")
  {
    seq(|values|, i requires 0 <= i < |values| => Data(values[i] + ";"))
  }

  lemma {:induction false} WalkDataOnly(events: seq<Event>, d: nat)
    requires forall i :: 0 <= i < |events| ==> events[i].Data?
    ensures Walk(events, d) == Some(d)
    decreases |events|
  {
    if |events| > 0 {
      WalkDataOnly(events[1..], d);
    }
  }

  /** One section segment. */
  function SaverEvents(f: Saver): (r: seq<Event>)
    ensures Blank !in r
  {
    [Open(f.sectionName)] + DataEvents(f.data) + [Close]
  }

  /** The section segments of a component, in array order. */
  function SaversEvents(fs: seq<Saver>): (r: seq<Event>)
    ensures Blank !in r
    ensures forall d: nat :: Walk(r, d) == Some(d)
    decreases |fs|
  {
    if |fs| == 0 then []
    else
      var head := SaverEvents(fs[0]);
      var rest := SaversEvents(fs[1..]);
      assert forall d: nat :: Walk(head, d) == Some(d) by {
        forall d: nat ensures Walk(head, d) == Some(d) {
          WalkAppend([Open(fs[0].sectionName)], DataEvents(fs[0].data) + [Close], d);
          WalkAppend(DataEvents(fs[0].data), [Close], d + 1);
          WalkDataOnly(DataEvents(fs[0].data), d + 1);
          assert [Open(fs[0].sectionName)] + DataEvents(fs[0].data) + [Close]
              == [Open(fs[0].sectionName)] + (DataEvents(fs[0].data) + [Close]);
        }
      }
      assert forall d: nat :: Walk(head + rest, d) == Some(d) by {
        forall d: nat ensures Walk(head + rest, d) == Some(d) {
          WalkAppend(head, rest, d);
        }
      }
      head + rest
  }

  /** One component segment: its field lines, the blank pair exactly when it
      has a saver, then one segment per saver. */
  function ComponentEvents(className: string, s: Savable): (r: seq<Event>)
    ensures Blank in r <==> |s.savers| > 0
    ensures forall d: nat :: Walk(r, d) == Some(d)
  {
    var fields := FieldEvents(s.values);
    var blanks := if |s.savers| > 0 then [Blank, Blank] else [];
    var inner := fields + blanks + SaversEvents(s.savers);
    assert forall d: nat :: Walk(inner, d) == Some(d) by {
      forall d: nat ensures Walk(inner, d) == Some(d) {
        WalkAppend(fields + blanks, SaversEvents(s.savers), d);
        WalkAppend(fields, blanks, d);
        WalkDataOnly(fields, d);
      }
    }
    assert forall d: nat :: Walk([Open(className)] + inner + [Close], d) == Some(d) by {
      forall d: nat ensures Walk([Open(className)] + inner + [Close], d) == Some(d) {
        WalkAppend([Open(className)], inner + [Close], d);
        WalkAppend(inner, [Close], d + 1);
        assert [Open(className)] + inner + [Close] == [Open(className)] + (inner + [Close]);
      }
    }
    assert Blank !in fields;
    [Open(className)] + inner + [Close]
  }

  /** The component segments for the first |editors| components: the i-th
      header is the class name of the entity's i-th component, the body comes
      from the i-th editor. */
  function ComponentsEvents(classNames: seq<string>, editors: seq<Savable>): (r: seq<Event>)
    requires |editors| <= |classNames|
    ensures forall d: nat :: Walk(r, d) == Some(d)
    decreases |editors|
  {
    if |editors| == 0 then []
    else
      var head := ComponentEvents(classNames[0], editors[0]);
      var rest := ComponentsEvents(classNames[1..], editors[1..]);
      assert forall d: nat :: Walk(head + rest, d) == Some(d) by {
        forall d: nat ensures Walk(head + rest, d) == Some(d) {
          WalkAppend(head, rest, d);
        }
      }
      head + rest
  }

  /** The EntityData segment holding the name line, then the opening of the
      Components segment. */
  function Preamble(name: string): seq<Event> {
    [Open("EntityData"), Data("Name: " + name + ";"), Close, Open("Components")]
  }

  lemma WalkPreamble(name: string)
    ensures Walk(Preamble(name), 0) == Some(1)
  {
    var last: seq<Event> := [Open("Components")];
    assert Walk(last, 0) == Some(1) by { assert last[1..] == []; }
    var tail: seq<Event> := [Close] + last;
    assert Walk(tail, 1) == Some(1) by { assert tail[1..] == last; }
    var middle: seq<Event> := [Data("Name: " + name + ";")] + tail;
    assert Walk(middle, 1) == Some(1) by { assert middle[1..] == tail; }
    assert Preamble(name) == [Open("EntityData")] + middle;
    assert Preamble(name)[1..] == middle;
  }

  /** EbonEntities.save. The loop runs over the editor components; the i-th
      header asks the entity for its i-th component, which throws when the
      entity has fewer components than there are editors. */
  function Save(name: string, classNames: seq<string>, editors: seq<Savable>): (r: SaveOutcome)
    ensures r.Saved? <==> |editors| <= |classNames|
    ensures r.Saved? ==> Walk(r.events, 0) == Some(0)
    ensures r.Aborted? ==> Walk(r.partial, 0) == Some(1)
    ensures r.Saved? ==> |r.events| >= 5 && r.events[..2] == [Open("EntityData"), Data("Name: " + name + ";")]
  {
    if |editors| <= |classNames| then
      var body := ComponentsEvents(classNames, editors);
      WalkPreamble(name);
      WalkAppend(Preamble(name), body + [Close], 0);
      WalkAppend(body, [Close], 1);
      assert Preamble(name) + body + [Close] == Preamble(name) + (body + [Close]);
      Saved(Preamble(name) + body + [Close])
    else
      var body := ComponentsEvents(classNames, editors[..|classNames|]);
      WalkPreamble(name);
      WalkAppend(Preamble(name), body, 0);
      Aborted(Preamble(name) + body)
  }

  // ---------------------------------------------------------------------
  // Assumed rendering
  // ---------------------------------------------------------------------

  /** The line each call produces, as assumed here: an opening line is the
      header followed by ` {`, a data call writes its text as one line, a
      blank line is empty and a close is `};`. Indentation is left out. */
  function Render(e: Event): string {
    match e
    case Open(h) => h + " {"
    case Data(t) => t
    case Blank => ""
    case Close => "};"
  }

  function RenderAll(events: seq<Event>): (r: seq<string>)
    ensures |r| == |events|
    ensures forall i :: 0 <= i < |r| ==> r[i] == Render(events[i])
  {
    seq(|events|, i requires 0 <= i < |events| => Render(events[i]))
  }

  lemma RenderAllAppend(a: seq<Event>, b: seq<Event>)
    ensures RenderAll(a + b) == RenderAll(a) + RenderAll(b)
  {
  }
}
