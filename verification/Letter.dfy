/** Writing a scenario's facts as a letter and recording where each one landed
    (corpus/generator/letter.py). */
module Letter {
  import opened Predicates
  import opened Wrappers

  /** One declared fact as it stands in the letter. */
  datatype FactLine = FactLine(field: string, anchor: string, value: string, labelStart: nat, valueStart: nat) {
    function ValueEnd(): nat { valueStart + |value| }

    /** Label and value together. */
    function Quote(): string { anchor + " " + value }
  }

  datatype Fact = Fact(field: string, value: string)

  datatype Sender = Sender(salutation: string, name: string, address: string)

  /** A fact without a letter label. */
  datatype MissingLabel = MissingLabel(field: string)

  /** The pieces with a line break after each: what the running position counts. */
  function Terminated(pieces: seq<string>): string {
    if pieces == [] then "" else Terminated(pieces[..|pieces|-1]) + pieces[|pieces|-1] + "\n"
  }

  /** The pieces with a line break between them. */
  function Joined(pieces: seq<string>): string {
    if pieces == [] then ""
    else Terminated(pieces[..|pieces|-1]) + pieces[|pieces|-1]
  }

  /** Line breaks stand between the pieces only. */
  lemma {:induction false} JoinedAppend(pieces: seq<string>, last: string)
    ensures Joined([]) == ""
    ensures Joined(pieces + [last]) == if pieces == [] then last else Joined(pieces) + "\n" + last
  {
    assert (pieces + [last])[..|pieces|] == pieces;
    if pieces == [] {
      assert Terminated([]) == "";
    }
  }

  /** The label and the value stand exactly where the line says. */
  predicate Placed(text: string, line: FactLine) {
    && line.valueStart == line.labelStart + |line.anchor| + 1
    && line.ValueEnd() <= |text|
    && text[line.labelStart..line.valueStart] == line.anchor + " "
    && text[line.valueStart..line.ValueEnd()] == line.value
  }

  lemma {:induction false} QuoteAtLabel(text: string, line: FactLine)
    requires Placed(text, line)
    ensures text[line.labelStart..line.ValueEnd()] == line.Quote()
  {
    assert text[line.labelStart..line.ValueEnd()] ==
           text[line.labelStart..line.valueStart] + text[line.valueStart..line.ValueEnd()];
  }

  lemma {:induction false} PlacedStays(text: string, more: string, line: FactLine)
    requires Placed(text, line) && text <= more
    ensures Placed(more, line)
  {
    assert more[..|text|] == text;
    assert more[line.labelStart..line.valueStart] == text[line.labelStart..line.valueStart];
    assert more[line.valueStart..line.ValueEnd()] == text[line.valueStart..line.ValueEnd()];
  }

  /** The block writer: pieces so far, and the offset at which the next one will stand. */
  class Writer {
    var pieces: seq<string>
    var position: nat

    constructor ()
      ensures pieces == [] && position == 0
    {
      pieces, position := [], 0;
    }

    method Write(block: string)
      modifies this
      ensures pieces == old(pieces) + [block]
      ensures position == old(position) + |block| + 1
      ensures Terminated(pieces) == Terminated(old(pieces)) + block + "\n"
    {
      assert (pieces + [block])[..|pieces|] == pieces;
      pieces := pieces + [block];
      position := position + |block| + 1;
    }
  }

  function Opening(subject: string, opening: string, sender: Sender, withSender: bool): seq<string> {
    ["Betreff: " + subject, "", "Sehr geehrte Damen und Herren,", "", opening, ""]
    + if withSender then ["Absender: " + sender.salutation + " " + sender.name, "Anschrift: " + sender.address] else []
  }

  function FactPieces(facts: seq<Fact>, labels: map<string, string>): (r: seq<string>)
    requires Labelled(facts, labels)
    ensures |r| == |facts|
    ensures forall i | 0 <= i < |r| :: r[i] == labels[facts[i].field] + " " + facts[i].value
  {
    seq(|facts|, i requires 0 <= i < |facts| =>
      assert facts[i] in facts; labels[facts[i].field] + " " + facts[i].value)
  }

  function Closing(closing: string, sender: Sender): seq<string> {
    ["", closing, sender.salutation + " " + sender.name]
  }

  predicate Labelled(facts: seq<Fact>, labels: map<string, string>) {
    forall f | f in facts :: f.field in labels
  }

  /** Every fact has its line, in order, and every line stands in `text`. */
  ghost predicate Recorded(lines: seq<FactLine>, facts: seq<Fact>, labels: map<string, string>, text: string) {
    && |lines| == |facts|
    && forall i | 0 <= i < |lines| ::
         && Placed(text, lines[i])
         && lines[i].field == facts[i].field && lines[i].value == facts[i].value
         && facts[i].field in labels && lines[i].anchor == labels[facts[i].field]
  }

  lemma {:induction false} RecordedStays(lines: seq<FactLine>, facts: seq<Fact>, labels: map<string, string>,
                                        text: string, more: string)
    requires Recorded(lines, facts, labels, text) && text <= more
    ensures Recorded(lines, facts, labels, more)
  {
    forall i | 0 <= i < |lines|
      ensures Placed(more, lines[i])
    {
      PlacedStays(text, more, lines[i]);
    }
  }

  method WriteOpening(w: Writer, subject: string, opening: string, sender: Sender, withSender: bool)
    requires w.pieces == [] && w.position == 0
    modifies w
    ensures w.pieces == Opening(subject, opening, sender, withSender)
    ensures w.position == |Terminated(w.pieces)|
  {
    hide Terminated;
    TerminatedNone();
    w.Write("Betreff: " + subject);
    w.Write("");
    w.Write("Sehr geehrte Damen und Herren,");
    w.Write("");
    w.Write(opening);
    w.Write("");
    if withSender {
      w.Write("Absender: " + sender.salutation + " " + sender.name);
      w.Write("Anschrift: " + sender.address);
    }
  }

  lemma {:induction false} TerminatedNone()
    ensures Terminated([]) == ""
  {
  }

  /** One line per fact, or the first fact without a label. */
  method WriteFacts(w: Writer, facts: seq<Fact>, labels: map<string, string>)
    returns (r: Result<seq<FactLine>, MissingLabel>)
    requires w.position == |Terminated(w.pieces)|
    modifies w
    ensures r.Ok? <==> Labelled(facts, labels)
    ensures r.Ok? ==>
              && w.pieces == old(w.pieces) + FactPieces(facts, labels)
              && Recorded(r.value, facts, labels, Terminated(w.pieces))
    ensures r.Err? ==> exists i | 0 <= i < |facts| ::
                         && r.error == MissingLabel(facts[i].field) && facts[i].field !in labels
                         && forall k | 0 <= k < i :: facts[k].field in labels
  {
    hide Terminated, Placed;
    var lines: seq<FactLine> := [];
    assert facts[..0] == [];
    for i := 0 to |facts|
      invariant forall k | 0 <= k < i :: facts[k].field in labels
      invariant w.position == |Terminated(w.pieces)|
      invariant w.pieces == old(w.pieces) + FactPieces(facts[..i], labels)
      invariant Recorded(lines, facts[..i], labels, Terminated(w.pieces))
    {
      var field, value := facts[i].field, facts[i].value;
      if field !in labels {
        assert facts[i] in facts;
        return Err(MissingLabel(field));
      }
      var anchor := labels[field];
      var line := FactLine(field, anchor, value, w.position, w.position + |anchor| + 1);
      ghost var before := Terminated(w.pieces);
      w.Write(anchor + " " + value);
      PlacedAfterWrite(before, line);
      RecordedStays(lines, facts[..i], labels, before, Terminated(w.pieces));
      lines := lines + [line];
      assert FactPieces(facts[..i+1], labels) == FactPieces(facts[..i], labels) + [anchor + " " + value];
    }
    assert facts[..|facts|] == facts;
    return Ok(lines);
  }

  /** Builds the letter; every recorded offset slices back to its label and its value. */
  method Compose(subject: string, opening: string, closing: string, facts: seq<Fact>, labels: map<string, string>,
                 sender: Sender, withSender: bool)
    returns (r: Result<(string, seq<FactLine>), MissingLabel>)
    ensures r.Ok? <==> Labelled(facts, labels)
    ensures r.Err? ==> exists i | 0 <= i < |facts| ::
                         && r.error == MissingLabel(facts[i].field) && facts[i].field !in labels
                         && forall k | 0 <= k < i :: facts[k].field in labels
    ensures r.Ok? ==>
              && r.value.0 == Joined(Opening(subject, opening, sender, withSender) + FactPieces(facts, labels)
                                     + Closing(closing, sender))
              && Recorded(r.value.1, facts, labels, r.value.0)
  {
    hide Opening, FactPieces, Placed, Recorded, Labelled;
    var w := new Writer();
    WriteOpening(w, subject, opening, sender, withSender);
    var lines := WriteFacts(w, facts, labels);
    if lines.Err? {
      return Err(lines.error);
    }
    ghost var body := w.pieces;
    w.Write("");
    w.Write(closing);
    w.Write(sender.salutation + " " + sender.name);
    assert w.pieces == body + Closing(closing, sender);
    var text := Joined(w.pieces);
    TerminatedPrefix(body, w.pieces[..|w.pieces|-1]);
    RecordedStays(lines.value, facts, labels, Terminated(body), text);
    r := Ok((text, lines.value));
  }

  lemma {:induction false} PlacedAfterWrite(before: string, line: FactLine)
    requires line.labelStart == |before| && line.valueStart == |before| + |line.anchor| + 1
    ensures Placed(before + (line.anchor + " " + line.value) + "\n", line)
    ensures line.ValueEnd() < |before + (line.anchor + " " + line.value) + "\n"|
  {
    var text := before + (line.anchor + " " + line.value) + "\n";
    assert text[line.labelStart..line.valueStart] == line.anchor + " ";
    assert text[line.valueStart..line.ValueEnd()] == line.value;
  }

  lemma {:induction false} TerminatedPrefix(pieces: seq<string>, more: seq<string>)
    requires pieces <= more
    ensures Terminated(pieces) <= Terminated(more)
    decreases |more|
  {
    if |pieces| < |more| {
      TerminatedPrefix(pieces, more[..|more|-1]);
    } else {
      assert pieces == more;
    }
  }
}
