/** The parser of the classifier's reply: the reply is split into lines
    and every line that begins with one of four fixed labels sets the
    matching field to the rest of the line, stripped. */
module ResponseParser {
  import opened Text
  import opened Interactions
  import opened Wrappers

  /** The four labelled fields of the reply. */
  datatype Field = Profile | Reaction | Strategy | Tip

  /** The label that opens each field's line, in the order the if/elif
      chain tests them. */
  function Label(f: Field): string {
    match f
    case Profile => ProfileLabel
    case Reaction => ReactionLabel
    case Strategy => StrategyLabel
    case Tip => TipLabel
  }

  const ProfileLabel: string := "**1. Perfil Detectado:**"
  const ReactionLabel: string := "**2. Sua Reação:**"
  const StrategyLabel: string := "**3. A Estratégia Que Funciona:**"
  /** Written as two literals: the verifier does not look inside a single
      string literal of this length. */
  const TipLabel: string := "**4. Aja Como Um Guerreiro " + "(Dica Essencial!):**"

  /** The four parsed values ('perfil_ia', 'reacao_ia', 'estrategia_ia',
      'dica_ia' in the application). */
  datatype Analysis = Analysis(profile: string, reaction: string, strategy: string, tip: string)

  function Get(a: Analysis, f: Field): string {
    match f
    case Profile => a.profile
    case Reaction => a.reaction
    case Strategy => a.strategy
    case Tip => a.tip
  }

  function Set(a: Analysis, f: Field, v: string): (r: Analysis)
    ensures Get(r, f) == v
    ensures forall g :: g != f ==> Get(r, g) == Get(a, g)
  {
    match f
    case Profile => a.(profile := v)
    case Reaction => a.(reaction := v)
    case Strategy => a.(strategy := v)
    case Tip => a.(tip := v)
  }

  /** Every field starts out as the "not identified" sentinel. */
  const Initial: Analysis := Analysis(NotIdentified, NotIdentified, NotIdentified, NotIdentified)

  /** What a labelled line contributes: the line with every occurrence of
      the label removed, then stripped. */
  function Extract(line: string, tag: string): string {
    Strip(RemoveAll(line, tag))
  }

  /** The label a line begins with, tested in the if/elif order. */
  function LabelOf(line: string): (r: Option<Field>)
    ensures r.Some? ==> StartsWith(line, Label(r.value))
    ensures r.None? ==> forall f :: !StartsWith(line, Label(f))
  {
    if StartsWith(line, Label(Profile)) then Some(Profile)
    else if StartsWith(line, Label(Reaction)) then Some(Reaction)
    else if StartsWith(line, Label(Strategy)) then Some(Strategy)
    else if StartsWith(line, Label(Tip)) then Some(Tip)
    else None
  }

  /** One iteration of the loop over the lines. */
  function Step(a: Analysis, line: string): Analysis {
    match LabelOf(line)
    case Some(f) => Set(a, f, Extract(line, Label(f)))
    case None => a
  }

  /** The state of the four variables after the loop has visited `lines`. */
  function ParseLines(lines: seq<string>): Analysis
    decreases |lines|
  {
    if lines == [] then Initial
    else Step(ParseLines(lines[..|lines| - 1]), lines[|lines| - 1])
  }

  /** The lines of the reply, as `str.split('\n')` gives them. */
  function Lines(response: string): (ls: seq<string>)
    ensures |ls| >= 1
    ensures forall i :: 0 <= i < |ls| ==> '\n' !in ls[i]
    ensures Join(ls, '\n') == response
  {
    JoinSplit(response, '\n');
    Split(response, '\n')
  }

  /** The parsing loop as the application runs it: four variables start
      at the sentinel and each line that begins with a label overwrites
      the one variable of that label. */
  method ParseResponse(response: string) returns (a: Analysis)
    ensures a == ParseLines(Lines(response))
  {
    var profile, reaction, strategy, tip := NotIdentified, NotIdentified, NotIdentified, NotIdentified;
    var lines := Split(response, '\n');
    for i := 0 to |lines|
      invariant Analysis(profile, reaction, strategy, tip) == ParseLines(lines[..i])
    {
      var line := lines[i];
      assert lines[..i + 1][..i] == lines[..i];
      if StartsWith(line, Label(Profile)) {
        profile := Strip(RemoveAll(line, Label(Profile)));
      } else if StartsWith(line, Label(Reaction)) {
        reaction := Strip(RemoveAll(line, Label(Reaction)));
      } else if StartsWith(line, Label(Strategy)) {
        strategy := Strip(RemoveAll(line, Label(Strategy)));
      } else if StartsWith(line, Label(Tip)) {
        tip := Strip(RemoveAll(line, Label(Tip)));
      }
    }
    assert lines[..|lines|] == lines;
    a := Analysis(profile, reaction, strategy, tip);
  }

  // ---------------------------------------------------------------------
  // A reference definition, one field at a time

  /** The value one field ends with, read backwards: the last line that
      begins with the field's label decides, and with no such line the
      field is the sentinel. */
  function FieldValue(lines: seq<string>, f: Field): string
    decreases |lines|
  {
    if lines == [] then NotIdentified
    else if StartsWith(lines[|lines| - 1], Label(f)) then Extract(lines[|lines| - 1], Label(f))
    else FieldValue(lines[..|lines| - 1], f)
  }

  /** No line begins with two labels: the labels differ in their third
      character, so the if/elif order never hides one field behind
      another. */
  lemma LabelsExclusive(line: string, f: Field, g: Field)
    requires StartsWith(line, Label(f)) && StartsWith(line, Label(g))
    ensures f == g
  {
    LabelShape(f);
    LabelShape(g);
    assert Label(f)[2] == line[2] == Label(g)[2];
  }

  /** Every label is "**" followed by the field's number. */
  function Number(f: Field): char {
    match f
    case Profile => '1'
    case Reaction => '2'
    case Strategy => '3'
    case Tip => '4'
  }

  lemma LabelShape(f: Field)
    ensures |Label(f)| > 2 && Label(f)[0] == '*' && Label(f)[1] == '*' && Label(f)[2] == Number(f)
  {
    match f
    case Profile =>
    case Reaction =>
    case Strategy =>
    case Tip =>
  }

  /** A line starting with no label leaves all four fields as they are;
      one starting with a label changes that field and no other. */
  lemma StepChangesOnlyItsField(a: Analysis, line: string, g: Field)
    ensures StartsWith(line, Label(g)) ==> Get(Step(a, line), g) == Extract(line, Label(g))
    ensures !StartsWith(line, Label(g)) ==> Get(Step(a, line), g) == Get(a, g)
  {
    match LabelOf(line)
    case Some(f) =>
      if StartsWith(line, Label(g)) {
        LabelsExclusive(line, f, g);
      }
    case None =>
  }

  /** The loop computes, for each field, exactly the reference value. */
  lemma {:induction false} ParseLinesField(lines: seq<string>, f: Field)
    ensures Get(ParseLines(lines), f) == FieldValue(lines, f)
    decreases |lines|
  {
    if lines != [] {
      var init := lines[..|lines| - 1];
      ParseLinesField(init, f);
      StepChangesOnlyItsField(ParseLines(init), lines[|lines| - 1], f);
    }
  }

  /** A field whose label begins no line keeps the sentinel. */
  lemma {:induction false} UnmatchedFieldKeepsSentinel(lines: seq<string>, f: Field)
    requires forall j :: 0 <= j < |lines| ==> !StartsWith(lines[j], Label(f))
    ensures Get(ParseLines(lines), f) == NotIdentified
    decreases |lines|
  {
    ParseLinesField(lines, f);
    FieldValueUnmatched(lines, f);
  }

  lemma {:induction false} FieldValueUnmatched(lines: seq<string>, f: Field)
    requires forall j :: 0 <= j < |lines| ==> !StartsWith(lines[j], Label(f))
    ensures FieldValue(lines, f) == NotIdentified
    decreases |lines|
  {
    if lines != [] {
      var init := lines[..|lines| - 1];
      assert forall j :: 0 <= j < |init| ==> init[j] == lines[j];
      FieldValueUnmatched(init, f);
    }
  }

  /** When several lines carry a field's label, the last of them decides
      the field's value. */
  lemma {:induction false} LastMatchWins(lines: seq<string>, f: Field, j: nat)
    requires j < |lines| && StartsWith(lines[j], Label(f))
    requires forall k :: j < k < |lines| ==> !StartsWith(lines[k], Label(f))
    ensures Get(ParseLines(lines), f) == Extract(lines[j], Label(f))
    decreases |lines|
  {
    ParseLinesField(lines, f);
    FieldValueLastMatch(lines, f, j);
  }

  lemma {:induction false} FieldValueLastMatch(lines: seq<string>, f: Field, j: nat)
    requires j < |lines| && StartsWith(lines[j], Label(f))
    requires forall k :: j < k < |lines| ==> !StartsWith(lines[k], Label(f))
    ensures FieldValue(lines, f) == Extract(lines[j], Label(f))
    decreases |lines|
  {
    if j < |lines| - 1 {
      var init := lines[..|lines| - 1];
      assert forall k :: 0 <= k < |init| ==> init[k] == lines[k];
      FieldValueLastMatch(init, f, j);
    }
  }

  /** Every field is either the sentinel or the extract of some line that
      begins with its label: nothing else can end up in it. */
  lemma FieldComesFromALine(lines: seq<string>, f: Field)
    ensures Get(ParseLines(lines), f) == NotIdentified
         || exists j :: 0 <= j < |lines| && StartsWith(lines[j], Label(f))
                        && Get(ParseLines(lines), f) == Extract(lines[j], Label(f))
  {
    ParseLinesField(lines, f);
    FieldValueFromALine(lines, f);
  }

  lemma {:induction false} FieldValueFromALine(lines: seq<string>, f: Field)
    ensures FieldValue(lines, f) == NotIdentified
         || exists j :: 0 <= j < |lines| && StartsWith(lines[j], Label(f))
                        && FieldValue(lines, f) == Extract(lines[j], Label(f))
    decreases |lines|
  {
    if lines != [] && !StartsWith(lines[|lines| - 1], Label(f)) {
      var init := lines[..|lines| - 1];
      FieldValueFromALine(init, f);
      if FieldValue(init, f) != NotIdentified {
        var j :| 0 <= j < |init| && StartsWith(init[j], Label(f))
                 && FieldValue(init, f) == Extract(init[j], Label(f));
        assert lines[j] == init[j];
      }
    }
  }

  /** A line that does not begin with a label at its very first character,
      for instance one indented by whitespace, changes nothing. */
  lemma IndentedLineChangesNothing(a: Analysis, line: string)
    requires |line| > 0 && IsSpace(line[0])
    ensures Step(a, line) == a
  {
    assert line[0] != '*' by { StarIsNotSpace(); }
    forall f ensures !StartsWith(line, Label(f)) {
      LabelShape(f);
    }
  }

  lemma StarIsNotSpace()
    ensures !IsSpace('*')
  {
    assert '*' !in Whitespace;
  }

  /** A labelled line whose text carries no second copy of the label gives
      that text with surrounding whitespace removed. */
  lemma ExtractLabelledLine(tag: string, before: string, value: string, after: string)
    requires |tag| > 0
    requires AllSpace(before) && AllSpace(after)
    requires value == [] || (!IsSpace(value[0]) && !IsSpace(value[|value| - 1]))
    requires !Occurs(before + value + after, tag)
    ensures Extract(tag + (before + value + after), tag) == value
  {
    var rest := before + value + after;
    RemoveAllLeading(tag, rest);
    RemoveAllAbsent(rest, tag);
    StripOfPadded(before, value, after);
  }

  /** `replace` removes every copy of the label, not only the leading one:
      a line that also ends with the label yields the text between the two
      copies, stripped. */
  lemma ExtractRepeatedLabel(tag: string, before: string, value: string, after: string)
    requires |tag| > 0
    requires AllSpace(before) && AllSpace(after)
    requires value == [] || (!IsSpace(value[0]) && !IsSpace(value[|value| - 1]))
    requires !Occurs(before + value + after + tag[..|tag| - 1], tag)
    ensures Extract(tag + (before + value + after) + tag, tag) == value
  {
    RemoveAllBothEnds(before + value + after, tag);
    StripOfPadded(before, value, after);
  }

  /** The archetype line "**1. Perfil Detectado:** O Medroso **1. Perfil
      Detectado:**" yields "O Medroso": the second copy of the label goes. */
  lemma ProfileOfRepeatedLabel()
    ensures Extract(ProfileLabel + " O Medroso " + ProfileLabel, Label(Profile)) == "O Medroso"
  {
    var tag := ProfileLabel;
    LabelShape(Profile);
    SampleValueShape();
    var s := " O Medroso " + tag[..|tag| - 1];
    assert s[..11] == " O Medroso " && s[11..] == tag[..|tag| - 1];
    assert '*' !in " O Medroso ";
    ShortNeverOccurs(s[11..], tag);
    OccursAfter(s, tag, 11);
    assert " " + "O Medroso" + " " == " O Medroso ";
    ExtractRepeatedLabel(tag, " ", "O Medroso", " ");
  }

  /** The reply the classifier is instructed to give: a header line and
      the four labelled lines. For the sample objection "Cliente disse que
      estava caro e eu recuei." the profile line reads
      "**1. Perfil Detectado:** O Medroso", and the parser yields
      "O Medroso" whatever the other three lines say. */
  lemma SampleReplyProfile(reaction: string, strategy: string, tip: string)
    requires '\n' !in reaction && '\n' !in strategy && '\n' !in tip
    ensures var reply := Join(SampleReply(reaction, strategy, tip), '\n');
            Get(ParseLines(Lines(reply)), Profile) == "O Medroso"
  {
    var parts := SampleReply(reaction, strategy, tip);
    SampleReplyHasNoNewline(reaction, strategy, tip);
    SplitJoin(parts, '\n');
    SampleReplyLabels(reaction, strategy, tip);
    LastMatchWins(parts, Profile, 1);
    ProfileOfSample();
  }

  /** The five lines of the reply format, the profile being "O Medroso". */
  function SampleReply(reaction: string, strategy: string, tip: string): seq<string> {
    [Header, ProfileLabel + " O Medroso", ReactionLabel + reaction,
     StrategyLabel + strategy, TipLabel + tip]
  }

  /** Each of the five lines is free of line breaks. The facts about the
      literals are kept in lemmas of their own: proved together, they cost
      the verifier more than proved one at a time. */
  lemma SampleReplyHasNoNewline(reaction: string, strategy: string, tip: string)
    requires '\n' !in reaction && '\n' !in strategy && '\n' !in tip
    ensures forall i :: 0 <= i < 5 ==> '\n' !in SampleReply(reaction, strategy, tip)[i]
  {
    HeaderHasNoNewline();
    SampleValueHasNoNewline();
    LabelHasNoNewline(Profile);
    LabelHasNoNewline(Reaction);
    LabelHasNoNewline(Strategy);
    LabelHasNoNewline(Tip);
  }

  lemma HeaderHasNoNewline()
    ensures '\n' !in Header
  {
  }

  lemma SampleValueHasNoNewline()
    ensures '\n' !in " O Medroso"
  {
  }

  lemma SampleReplyLabels(reaction: string, strategy: string, tip: string)
    ensures StartsWith(SampleReply(reaction, strategy, tip)[1], Label(Profile))
    ensures forall k :: 0 <= k < 5 && k != 1 ==> !StartsWith(SampleReply(reaction, strategy, tip)[k], Label(Profile))
  {
    var parts := SampleReply(reaction, strategy, tip);
    LabelShape(Profile);
    assert parts[1][..|ProfileLabel|] == ProfileLabel;
    LabelShape(Reaction);
    LabelShape(Strategy);
    LabelShape(Tip);
    assert parts[0][2] == 'R' && parts[2][2] == '2' && parts[3][2] == '3' && parts[4][2] == '4';
  }

  lemma ProfileOfSample()
    ensures Extract(ProfileLabel + " O Medroso", Label(Profile)) == "O Medroso"
  {
    LabelShape(Profile);
    ShortNeverOccurs(" O Medroso", ProfileLabel);
    SampleValueShape();
    ExtractLabelledLine(ProfileLabel, " ", "O Medroso", "");
  }

  lemma SampleValueShape()
    ensures " O Medroso" == " " + "O Medroso" + ""
    ensures AllSpace(" ") && AllSpace("")
    ensures !IsSpace("O Medroso"[0]) && !IsSpace("O Medroso"[|"O Medroso"| - 1])
  {
    assert AllSpace(" ") by { assert ' ' in Whitespace; }
    assert "O Medroso"[0] == 'O' && "O Medroso"[8] == 'o';
    assert 'O' !in Whitespace && 'o' !in Whitespace;
  }

  /** The header line the classifier is told to open its reply with. */
  const Header: string := "**RODRIGO.FLOW™ ANALISA:**"

  lemma LabelHasNoNewline(f: Field)
    ensures '\n' !in Label(f)
  {
    match f
    case Profile => ProfileLabelHasNoNewline();
    case Reaction => ReactionLabelHasNoNewline();
    case Strategy => StrategyLabelHasNoNewline();
    case Tip => TipLabelHasNoNewline();
  }

  lemma ProfileLabelHasNoNewline()
    ensures '\n' !in ProfileLabel
  {
  }

  lemma ReactionLabelHasNoNewline()
    ensures '\n' !in ReactionLabel
  {
  }

  lemma StrategyLabelHasNoNewline()
    ensures '\n' !in StrategyLabel
  {
  }

  lemma TipLabelHasNoNewline()
    ensures '\n' !in TipLabel
  {
  }
}
