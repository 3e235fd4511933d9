/**
 * Prometheus exposition text as both engine clients read it. The two clients carry identical line
 * parsers; they are modelled once.
 */
module Exposition {
  import opened Wrappers
  import opened GoStrings
  import opened OrderStatistics

  /** `strconv.ParseFloat`, left abstract: some deterministic partial function on texts. */
  type FloatParser = string -> Option<real>

  datatype Point = Point(name: string, value: real)

  /** The line without its first label block; None when that block is never closed. */
  function StripLabels(line: string): Option<string> {
    var nameEnd := IndexByte(line, '{');
    if nameEnd < 0 then Some(line)
    else
      var closing := IndexByte(line[nameEnd..], '}');
      if closing < 0 then None
      else Some(line[..nameEnd] + line[nameEnd + closing + 1..])
  }

  /** `parseLine`. */
  function ParseLine(pf: FloatParser, line: string): Option<Point> {
    match StripLabels(line)
    case None => None
    case Some(rest) =>
      var parts := Fields(rest);
      if |parts| < 2 then None
      else
        match pf(parts[1])
        case None => None
        case Some(v) => Some(Point(parts[0], v))
  }

  /** One turn of the scanning loop: empty lines and comments are skipped. */
  function PointOn(pf: FloatParser, line: string): Option<Point> {
    if line == "" || line[0] == '#' then None else ParseLine(pf, line)
  }

  /** All samples of a body, in order. */
  function Points(pf: FloatParser, lines: seq<string>): seq<Point> {
    if lines == [] then [] else
      var init, last := Points(pf, lines[..|lines| - 1]), PointOn(pf, lines[|lines| - 1]);
      if last.Some? then init + [last.value] else init
  }

  /** The sum of a metric over all its samples. */
  function SeriesTotal(points: seq<Point>, name: string): real {
    if points == [] then 0.0 else
      var p := points[|points| - 1];
      SeriesTotal(points[..|points| - 1], name) + if p.name == name then p.value else 0.0
  }

  /** The value of the last sample carrying one of the names. */
  function LastValue(points: seq<Point>, names: set<string>): Option<real> {
    if points == [] then None else
      var p := points[|points| - 1];
      if p.name in names then Some(p.value) else LastValue(points[..|points| - 1], names)
  }

  // ----- The grammar of lines that carry a sample -----

  /** rest is the line, or the line around its first label block. */
  ghost predicate Stripped(line: string, rest: string) {
    || ('{' !in line && rest == line)
    || exists pre, labels, post :: LabelSplit(line, pre, labels, post) && rest == pre + post
  }

  ghost predicate LabelSplit(line: string, pre: string, labels: string, post: string) {
    line == pre + "{" + labels + "}" + post && '{' !in pre && '}' !in labels
  }

  /** The first two fields of rest. */
  ghost predicate LeadingFields(rest: string, name: string, text: string) {
    exists lead, gap, tail :: FieldSplit(rest, lead, name, gap, text, tail)
  }

  ghost predicate FieldSplit(
    rest: string, lead: string, name: string, gap: string, text: string, tail: string)
  {
    && rest == lead + name + (gap + text + tail)
    && AllSpace(lead) && IsToken(name)
    && AllSpace(gap) && gap != "" && IsToken(text)
    && Breaks(tail)
  }

  /** The line names a metric and carries a text that parses to the value. */
  ghost predicate Carries(pf: FloatParser, line: string, p: Point) {
    exists rest, text ::
      Stripped(line, rest) && LeadingFields(rest, p.name, text) && pf(text) == Some(p.value)
  }

  // ----- Parsing accepts exactly the grammar -----

  lemma StripLabelsSplit(line: string, pre: string, labels: string, post: string)
    requires LabelSplit(line, pre, labels, post)
    ensures StripLabels(line) == Some(pre + post)
  {
    assert line[..|pre|] == pre;
    FirstIndex(line, '{', |pre|);
    var block := line[|pre|..];
    assert block == "{" + labels + "}" + post;
    assert block[..|labels| + 1] == "{" + labels;
    FirstIndex(block, '}', |labels| + 1);
    assert line[|pre| + |labels| + 2..] == post;
  }

  lemma CutBlock(block: string, closing: nat)
    requires 0 < closing < |block| && block[0] == '{' && block[closing] == '}'
    ensures block == "{" + block[1..closing] + "}" + block[closing + 1..]
  {
  }

  lemma CutLine(line: string, at: nat, n: nat)
    requires at + n <= |line|
    ensures line == line[..at] + line[at..]
    ensures line[at..][n..] == line[at + n..]
  {
  }

  lemma StripLabelsSound(line: string) returns (pre: string, labels: string, post: string)
    requires '{' in line && StripLabels(line).Some?
    ensures LabelSplit(line, pre, labels, post) && StripLabels(line) == Some(pre + post)
  {
    hide IndexByte;
    var nameEnd := IndexByte(line, '{');
    var block := line[nameEnd..];
    var closing := IndexByte(block, '}');
    assert block[0] == '{';
    pre, labels, post := line[..nameEnd], block[1..closing], block[closing + 1..];
    CutBlock(block, closing);
    CutLine(line, nameEnd, closing + 1);
    assert labels == block[..closing][1..];
    LabelSplitFrom(line, pre, labels, post, block);
  }

  lemma LabelSplitFrom(line: string, pre: string, labels: string, post: string, block: string)
    requires line == pre + block && block == "{" + labels + "}" + post
    requires '{' !in pre && '}' !in labels
    ensures LabelSplit(line, pre, labels, post)
  {
    assert pre + ("{" + labels + "}" + post) == pre + "{" + labels + "}" + post;
  }

  lemma StripLabelsExact(line: string, rest: string)
    ensures StripLabels(line) == Some(rest) <==> Stripped(line, rest)
  {
    if '{' in line {
      if Stripped(line, rest) {
        var pre, labels, post :| LabelSplit(line, pre, labels, post) && rest == pre + post;
        StripLabelsSplit(line, pre, labels, post);
      }
      if StripLabels(line) == Some(rest) {
        var pre, labels, post := StripLabelsSound(line);
      }
    }
  }

  /** Splitting off the first two fields. */
  lemma FieldsOfSplit(
    rest: string, lead: string, name: string, gap: string, text: string, tail: string)
    requires FieldSplit(rest, lead, name, gap, text, tail)
    ensures Fields(rest) == [name, text] + Fields(tail)
  {
    hide Fields;
    assert rest == lead + (name + (gap + text + tail));
    FieldsAfterSpace(lead, name + (gap + text + tail));
    assert (gap + text + tail)[0] == gap[0] && gap[0] in gap;
    FieldsConcat(name, gap + text + tail);
    TokenIsOneField(name);
    assert gap + text + tail == gap + (text + tail);
    FieldsAfterSpace(gap, text + tail);
    FieldsConcat(text, tail);
    TokenIsOneField(text);
  }

  lemma FieldsExact(rest: string, name: string, text: string)
    ensures (|Fields(rest)| >= 2 && Fields(rest)[0] == name && Fields(rest)[1] == text)
            <==> LeadingFields(rest, name, text)
  {
    hide Fields;
    if LeadingFields(rest, name, text) {
      var lead, gap, tail :| FieldSplit(rest, lead, name, gap, text, tail);
      FieldsOfSplit(rest, lead, name, gap, text, tail);
    }
    if |Fields(rest)| >= 2 && Fields(rest)[0] == name && Fields(rest)[1] == text {
      var lead, t, after := FirstField(rest);
      var gap, u, tail := FirstField(after);
      assert t == Fields(rest)[0] == name;
      assert u == Fields(after)[0] == Fields(rest)[1] == text;
      assert after == gap + text + tail;
      assert gap != "" by {
        assert after[0] == (gap + text + tail)[0];
        assert text[0] in text;
      }
      assert FieldSplit(rest, lead, name, gap, text, tail);
    }
  }

  /** `parseLine` returns a sample exactly when the line carries it. */
  lemma LineGrammar(pf: FloatParser, line: string, p: Point)
    ensures ParseLine(pf, line) == Some(p) <==> Carries(pf, line, p)
  {
    hide Stripped, LeadingFields, Fields, StripLabels;
    if ParseLine(pf, line) == Some(p) {
      var rest := StripLabels(line).value;
      StripLabelsExact(line, rest);
      FieldsExact(rest, p.name, Fields(rest)[1]);
    }
    if Carries(pf, line, p) {
      var rest, text :|
        Stripped(line, rest) && LeadingFields(rest, p.name, text) && pf(text) == Some(p.value);
      StripLabelsExact(line, rest);
      FieldsExact(rest, p.name, text);
    }
  }

  // ----- Printing a sample -----

  /** A label block, and the white space between the name and it. */
  datatype LabelBlock = LabelBlock(space: string, body: string)

  /** One sample as an exporter prints it. */
  datatype PrintedSample = PrintedSample(
    lead: string, name: string, labels: Option<LabelBlock>, gap: string, text: string, tail: string)
  {
    /** What the parser needs of it; `tail` holds an optional timestamp after white space. */
    predicate Printable() {
      && AllSpace(lead) && IsToken(name) && '{' !in name && name[0] != '#'
      && AllSpace(gap) && IsToken(text) && Breaks(tail)
      && match labels
         case None => gap != "" && '{' !in text && '{' !in tail
         case Some(l) => AllSpace(l.space) && '}' !in l.body && (l.space != "" || gap != "")
    }

    function Print(): string {
      match labels
      case None => lead + name + (gap + text + tail)
      case Some(l) => lead + name + l.space + "{" + l.body + "}" + (gap + text + tail)
    }
  }

  /** The point a name and a value text stand for. */
  function PointFrom(pf: FloatParser, name: string, text: string): Option<Point> {
    match pf(text)
    case None => None
    case Some(v) => Some(Point(name, v))
  }

  /** What a printed sample stands for. */
  function Meaning(pf: FloatParser, s: PrintedSample): Option<Point> {
    PointFrom(pf, s.name, s.text)
  }

  lemma NoBraceInSpace(s: string)
    requires AllSpace(s)
    ensures '{' !in s && '}' !in s && '#' !in s
  {
    assert !IsSpace('{') && !IsSpace('}') && !IsSpace('#');
  }

  /** Two fields with white space between them are read as a sample. */
  lemma TwoFields(
    pf: FloatParser, line: string, lead: string, name: string, gap: string, text: string, tail: string)
    requires line != "" && line[0] != '#'
    requires StripLabels(line) == Some(lead + name + (gap + text + tail))
    requires FieldSplit(lead + name + (gap + text + tail), lead, name, gap, text, tail)
    ensures PointOn(pf, line) == PointFrom(pf, name, text)
  {
    hide Fields, StripLabels;
    FieldsOfSplit(lead + name + (gap + text + tail), lead, name, gap, text, tail);
  }

  /** Parsing undoes printing. */
  lemma SampleRoundTrip(pf: FloatParser, s: PrintedSample)
    requires s.Printable()
    ensures PointOn(pf, s.Print()) == Meaning(pf, s)
  {
    hide Fields, StripLabels, PointOn;
    var line := s.Print();
    NoBraceInSpace(s.lead);
    NoBraceInSpace(s.gap);
    assert line[0] == (s.lead + s.name)[0];
    match s.labels
    case None =>
      StripLabelsExact(line, line);
      TwoFields(pf, line, s.lead, s.name, s.gap, s.text, s.tail);
    case Some(l) =>
      NoBraceInSpace(l.space);
      var pre, post := s.lead + s.name + l.space, s.gap + s.text + s.tail;
      assert LabelSplit(line, pre, l.body, post);
      StripLabelsSplit(line, pre, l.body, post);
      assert pre + post == s.lead + s.name + ((l.space + s.gap) + s.text + s.tail);
      TwoFields(pf, line, s.lead, s.name, l.space + s.gap, s.text, s.tail);
  }

  /** A line of a body: a sample, or anything that carries none. */
  datatype Item = Metric(sample: PrintedSample) | Noise(line: string)

  ghost predicate Legible(pf: FloatParser, item: Item) {
    match item
    case Metric(s) => s.Printable()
    case Noise(line) => line == "" || line[0] == '#' || forall p :: !Carries(pf, line, p)
  }

  function PrintItem(item: Item): string {
    match item
    case Metric(s) => s.Print()
    case Noise(line) => line
  }

  function PrintBody(items: seq<Item>): (lines: seq<string>)
    ensures |lines| == |items|
  {
    seq(|items|, i requires 0 <= i < |items| => PrintItem(items[i]))
  }

  function Meanings(pf: FloatParser, items: seq<Item>): seq<Point> {
    if items == [] then [] else
      var init, last := Meanings(pf, items[..|items| - 1]), items[|items| - 1];
      if last.Metric? && Meaning(pf, last.sample).Some?
      then init + [Meaning(pf, last.sample).value] else init
  }

  /**
   * A body made of printed samples, comments, blank lines and malformed lines reads back as
   * exactly its samples, in order.
   */
  lemma {:induction false} BodyRoundTrip(pf: FloatParser, items: seq<Item>)
    requires forall i :: 0 <= i < |items| ==> Legible(pf, items[i])
    ensures Points(pf, PrintBody(items)) == Meanings(pf, items)
  {
    hide ParseLine, Carries;
    if items == [] {
    } else {
      var init, last := items[..|items| - 1], items[|items| - 1];
      BodyRoundTrip(pf, init);
      assert PrintBody(items)[..|items| - 1] == PrintBody(init);
      match last
      case Metric(s) => SampleRoundTrip(pf, s);
      case Noise(line) =>
        if line != "" && line[0] != '#' && ParseLine(pf, line).Some? {
          LineGrammar(pf, line, ParseLine(pf, line).value);
        }
    }
  }

  // ----- Where the parser and the exposition format part -----

  /** A labelled sample line: any label block, white space around it or not. */
  function LabelledLine(
    name: string, space: string, labels: string, gap: string, text: string): string
  {
    name + space + "{" + labels + "}" + (gap + text)
  }

  /** A metric name and the white space around a label block that follows it. */
  predicate Surroundings(name: string, space: string, gap: string) {
    IsToken(name) && '{' !in name && name[0] != '#' && AllSpace(space) && AllSpace(gap)
  }

  /** The line is read as its metric with its value text. */
  ghost predicate ReadsAs(pf: FloatParser, line: string, name: string, text: string) {
    PointOn(pf, line) == PointFrom(pf, name, text)
  }

  /** Every value text after this label block is read correctly. */
  ghost predicate AllTextsRead(
    pf: FloatParser, name: string, space: string, labels: string, gap: string)
  {
    forall text :: IsToken(text) ==>
      ReadsAs(pf, LabelledLine(name, space, labels, gap, text), name, text)
  }

  /** The text parser tells two texts apart. */
  ghost predicate Discerning(pf: FloatParser, one: string, two: string) {
    IsToken(one) && IsToken(two) && pf(one).Some? && pf(two).Some? && pf(one) != pf(two)
  }

  /** The text parser accepts no text with a closing brace, as no numeral has one. */
  ghost predicate RejectsBraces(pf: FloatParser) {
    forall text :: '}' in text ==> pf(text) == None
  }

  /**
   * The format asks for white space between tokens only where they would merge; the parser joins
   * what stands before and after the label block. After a block without '}', a value is read
   * exactly when there is white space before the block or after it.
   */
  lemma GapExact(
    pf: FloatParser, name: string, space: string, labels: string, gap: string, text: string)
    requires Surroundings(name, space, gap) && '}' !in labels && IsToken(text) && pf(text).Some?
    ensures ReadsAs(pf, LabelledLine(name, space, labels, gap, text), name, text)
            <==> space != "" || gap != ""
  {
    hide PointOn;
    if space != "" || gap != "" {
      SpacedBlock(pf, name, space, labels, gap, text);
    } else {
      MissingGapLosesSample(pf, name, labels, text);
    }
  }

  lemma SpacedBlock(
    pf: FloatParser, name: string, space: string, labels: string, gap: string, text: string)
    requires Surroundings(name, space, gap) && '}' !in labels && IsToken(text)
    requires space != "" || gap != ""
    ensures ReadsAs(pf, LabelledLine(name, space, labels, gap, text), name, text)
  {
    hide PointOn;
    var s := PrintedSample("", name, Some(LabelBlock(space, labels)), gap, text, "");
    assert "" + name == name && gap + text + "" == gap + text;
    SampleRoundTrip(pf, s);
  }

  /** The glued case: no white space on either side, and the sample is lost. */
  lemma MissingGapLosesSample(pf: FloatParser, name: string, labels: string, text: string)
    requires IsToken(name) && '{' !in name && '}' !in labels && IsToken(text)
    ensures PointOn(pf, LabelledLine(name, "", labels, "", text)) == None
  {
    hide Fields, StripLabels;
    var line := LabelledLine(name, "", labels, "", text);
    assert "" + text == text && name + "" == name;
    assert LabelSplit(line, name, labels, text);
    StripLabelsSplit(line, name, labels, text);
    TokenIsOneField(name + text);
  }

  /**
   * The format allows '}' inside a label value; the parser closes the block at the first one. Value
   * texts are read correctly after a label block exactly when it holds no '}'. The text parser must
   * tell two texts apart, and reject braces where the value follows the block directly.
   */
  lemma LabelBlockExact(
    pf: FloatParser, name: string, space: string, labels: string, gap: string, one: string, two: string)
    requires Surroundings(name, space, gap) && Discerning(pf, one, two)
    requires gap != "" || (space != "" && RejectsBraces(pf))
    ensures AllTextsRead(pf, name, space, labels, gap) <==> '}' !in labels
  {
    hide PointOn;
    if '}' !in labels {
      forall text | IsToken(text)
        ensures ReadsAs(pf, LabelledLine(name, space, labels, gap, text), name, text)
      {
        SpacedBlock(pf, name, space, labels, gap, text);
      }
    } else {
      SpillDefeatsOne(pf, name, space, labels, gap, one, two);
    }
  }

  /** Both conditions at once, for a text parser that rejects braces. */
  lemma LabelledLineExact(
    pf: FloatParser, name: string, space: string, labels: string, gap: string, one: string, two: string)
    requires Surroundings(name, space, gap) && Discerning(pf, one, two) && RejectsBraces(pf)
    ensures AllTextsRead(pf, name, space, labels, gap)
            <==> '}' !in labels && (space != "" || gap != "")
  {
    hide PointOn, LabelledLine;
    if space != "" || gap != "" {
      LabelBlockExact(pf, name, space, labels, gap, one, two);
    } else if '}' !in labels {
      GapExact(pf, name, space, labels, gap, one);
    } else {
      SpillDefeatsOne(pf, name, space, labels, gap, one, two);
    }
  }

  /** With a '}' in the block, two texts that differ cannot both be read correctly. */
  lemma {:induction false} SpillDefeatsOne(
    pf: FloatParser, name: string, space: string, labels: string, gap: string, one: string, two: string)
    requires Surroundings(name, space, gap) && Discerning(pf, one, two)
    requires '}' in labels && (gap != "" || RejectsBraces(pf))
    ensures !(ReadsAs(pf, LabelledLine(name, space, labels, gap, one), name, one)
              && ReadsAs(pf, LabelledLine(name, space, labels, gap, two), name, two))
  {
    hide PointOn, Fields, RejectsBraces;
    var k := IndexByte(labels, '}');
    var block, spill := labels[..k], space + (labels[k + 1..] + "}");
    SpilledBlock(name, space, labels, gap, one);
    SpilledBlock(name, space, labels, gap, two);
    SpilledLine(pf, LabelledLine(name, space, labels, gap, one), name, spill, gap, one);
    SpilledLine(pf, LabelledLine(name, space, labels, gap, two), name, spill, gap, two);
  }

  /** What is left of the line when the block closes at the first of its braces. */
  lemma SpilledBlock(name: string, space: string, labels: string, gap: string, text: string)
    requires Surroundings(name, space, gap) && '}' in labels
    ensures var spill := space + (labels[IndexByte(labels, '}') + 1..] + "}");
            StripLabels(LabelledLine(name, space, labels, gap, text))
            == Some(name + (spill + (gap + text)))
  {
    hide StripLabels;
    NoBraceInSpace(space);
    var k := IndexByte(labels, '}');
    var block, tail := labels[..k], labels[k + 1..];
    assert labels == block + "}" + tail;
    var line := LabelledLine(name, space, labels, gap, text);
    var post := tail + "}" + (gap + text);
    assert line == name + space + "{" + block + "}" + post;
    assert LabelSplit(line, name + space, block, post);
    StripLabelsSplit(line, name + space, block, post);
    assert name + space + post == name + (space + (tail + "}") + (gap + text));
  }

  /** What is read then: another name, a value fixed by the block, or nothing; never the text. */
  lemma SpilledLine(
    pf: FloatParser, line: string, name: string, spill: string, gap: string, text: string)
    requires IsToken(name) && line != "" && line[0] == name[0] && name[0] != '#'
    requires StripLabels(line) == Some(name + (spill + (gap + text)))
    requires spill != "" && spill[|spill| - 1] == '}' && AllSpace(gap) && IsToken(text)
    requires gap != "" || RejectsBraces(pf)
    ensures Fields(spill) != []
    ensures if IsSpace(spill[0]) then
              PointOn(pf, line) == PointFrom(pf, name, Fields(spill)[0]) || PointOn(pf, line) == None
            else
              PointOn(pf, line).Some? ==> PointOn(pf, line).value.name != name
  {
    hide Fields, StripLabels;
    var rest := name + (spill + (gap + text));
    FieldsNonEmpty(spill, '}');
    if IsSpace(spill[0]) {
      TokenIsOneField(name);
      FieldsConcat(name, spill + (gap + text));
      assert Fields(rest) == [name] + Fields(spill + (gap + text));
      SpilledField(spill, gap, text);
    } else {
      LongerFirstField(name, spill + (gap + text));
    }
  }

  /** The first field of the spill is fixed by the block, or it swallows a brace and the text. */
  lemma SpilledField(spill: string, gap: string, text: string)
    requires spill != "" && spill[|spill| - 1] == '}' && AllSpace(gap) && IsToken(text)
    ensures Fields(spill) != []
    ensures var fields := Fields(spill + (gap + text));
            fields != [] && (fields[0] == Fields(spill)[0] || (gap == "" && '}' in fields[0]))
  {
    hide Fields;
    FieldsNonEmpty(spill, '}');
    if gap != "" {
      assert (gap + text)[0] == gap[0] && gap[0] in gap;
      FieldsConcat(spill, gap + text);
    } else {
      assert gap + text == text;
      var lead, t, after := FirstField(spill);
      if after == "" {
        assert spill == lead + t;
        GluedField(lead, t, text);
      } else {
        assert spill + text == (lead + t) + (after + text);
        assert (after + text)[0] == after[0];
        FieldsConcat(lead + t, after + text);
        FieldsAfterSpace(lead, t);
        TokenIsOneField(t);
      }
    }
  }

  lemma GluedField(lead: string, t: string, text: string)
    requires AllSpace(lead) && IsToken(t) && IsToken(text) && t[|t| - 1] == '}'
    ensures Fields(lead + t + text) == [t + text] && '}' in t + text
  {
    hide Fields;
    assert lead + t + text == lead + (t + text);
    FieldsAfterSpace(lead, t + text);
    TokenIsOneField(t + text);
    assert (t + text)[|t| - 1] == '}';
  }

  lemma FieldsNonEmpty(s: string, c: char)
    requires c in s && !IsSpace(c)
    ensures Fields(s) != []
  {
    if IsSpace(s[0]) {
      assert c in s[1..];
      FieldsNonEmpty(s[1..], c);
    }
  }

  lemma LongerFirstField(name: string, spill: string)
    requires IsToken(name) && spill != "" && !IsSpace(spill[0])
    ensures Fields(name + spill) != [] && |Fields(name + spill)[0]| > |name|
  {
    var s := name + spill;
    assert forall k :: 0 <= k < |name| ==> s[k] in name;
    assert forall k :: 0 <= k <= |name| ==> !IsSpace(s[k]);
  }

  // ----- Bodies concatenated and reordered -----

  lemma {:induction false} PointsConcat(pf: FloatParser, a: seq<string>, b: seq<string>)
    ensures Points(pf, a + b) == Points(pf, a) + Points(pf, b)
  {
    hide PointOn;
    if b == [] {
      assert a + b == a;
    } else {
      PointsConcat(pf, a, b[..|b| - 1]);
      assert (a + b)[..|a + b| - 1] == a + b[..|b| - 1];
    }
  }

  lemma {:induction false} TotalConcat(p: seq<Point>, q: seq<Point>, name: string)
    ensures SeriesTotal(p + q, name) == SeriesTotal(p, name) + SeriesTotal(q, name)
  {
    if q == [] {
      assert p + q == p;
    } else {
      TotalConcat(p, q[..|q| - 1], name);
      assert (p + q)[..|p + q| - 1] == p + q[..|q| - 1];
    }
  }

  lemma {:induction false} ValuesAdd(pf: FloatParser, a: seq<string>, b: seq<string>, name: string)
    ensures SeriesTotal(Points(pf, a + b), name)
            == SeriesTotal(Points(pf, a), name) + SeriesTotal(Points(pf, b), name)
  {
    PointsConcat(pf, a, b);
    TotalConcat(Points(pf, a), Points(pf, b), name);
  }

  /** What one line adds to a metric's sum. */
  function Share(pf: FloatParser, line: string, name: string): real {
    SeriesTotal(Points(pf, [line]), name)
  }

  lemma {:induction false} TotalWithout(pf: FloatParser, lines: seq<string>, i: nat, name: string)
    requires i < |lines|
    ensures SeriesTotal(Points(pf, lines), name)
            == SeriesTotal(Points(pf, Without(lines, i)), name) + Share(pf, lines[i], name)
  {
    hide Points, SeriesTotal;
    assert lines == lines[..i] + [lines[i]] + lines[i + 1..];
    ValuesAdd(pf, lines[..i] + [lines[i]], lines[i + 1..], name);
    ValuesAdd(pf, lines[..i], [lines[i]], name);
    ValuesAdd(pf, lines[..i], lines[i + 1..], name);
  }

  /** Reordering the lines of a body changes no sum. */
  lemma {:induction false} LineOrderIrrelevant(
    pf: FloatParser, a: seq<string>, b: seq<string>, name: string)
    requires multiset(a) == multiset(b)
    ensures SeriesTotal(Points(pf, a), name) == SeriesTotal(Points(pf, b), name)
  {
    hide Points, SeriesTotal;
    if a == [] {
      assert |multiset(b)| == 0;
    } else {
      assert a[0] in multiset(b);
      var i :| 0 <= i < |b| && b[i] == a[0];
      TotalWithout(pf, a, 0, name);
      TotalWithout(pf, b, i, name);
      LineOrderIrrelevant(pf, Without(a, 0), Without(b, i), name);
    }
  }
}
