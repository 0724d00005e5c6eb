/**
  The Quickbook emitters of quickbook_output.hpp. Each emitter is a method
  that appends to an OutStream, proved to append exactly the text a
  specification function describes; the lemmas state what the source
  promises about that text.
*/
module QuickbookOutput {
  import opened BoostString
  import opened DoxygenElements
  import opened OutputText
  import opened QbkEscape
  import opened QbkNames
  import opened TemplateParameters

  // ---------------------------------------------------------------------------
  // quickbook_template_parameter_list
  // ---------------------------------------------------------------------------

  /** The separator between template parameters: a line break and nine spaces for long multi-line lists. */
  function TemplateSeparator(multiline: bool, count: nat): string {
    if multiline && 2 < count then ",\n" + "         " else ", "
  }

  /** One template parameter: its full type, and ` = default` when defaults are shown and it has one. */
  function TemplateItem(p: Parameter, showDefaults: bool): string {
    p.fullType + (if showDefaults && p.defaultValue != [] then " = " + p.defaultValue else [])
  }

  function TemplateItems(parameters: seq<Parameter>, showDefaults: bool): seq<string> {
    Map(parameters, p => TemplateItem(p, showDefaults))
  }

  /**
    quickbook_template_parameter_list: nothing for an empty list, otherwise
    `template<`, the parameters separated by the separator, `>` and a newline.
  */
  function TemplateParameterList(parameters: seq<Parameter>, multiline: bool, showDefaults: bool): (r: string)
    ensures r == [] <==> parameters == []
  {
    if parameters == [] then []
    else "template<" + Join(TemplateItems(parameters, showDefaults), TemplateSeparator(multiline, |parameters|)) + ">\n"
  }

  method WriteTemplateParameterList(parameters: seq<Parameter>, out: OutStream, multiline: bool, showDefaults: bool)
    modifies out
    ensures out.text == old(out.text) + TemplateParameterList(parameters, multiline, showDefaults)
  {
    var nextParam: string;
    if multiline {
      if 2 < |parameters| {
        nextParam := ",\n" + "         ";
      } else {
        nextParam := ", ";
      }
    } else {
      nextParam := ", ";
    }
    if parameters != [] {
      ghost var t0 := out.text;
      out.Write("template<");
      ghost var start := out.text;
      ghost var items := TemplateItems(parameters, showDefaults);
      var first := true;
      var j := 0;
      while j < |parameters|
        invariant j <= |parameters|
        invariant first <==> j == 0
        invariant out.text == start + Opened(items[..j], [], nextParam)
      {
        var p := parameters[j];
        var item := p.fullType;
        if showDefaults && p.defaultValue != [] {
          item := item + (" = " + p.defaultValue);
        }
        assert item == items[j];
        var piece := (if first then [] else nextParam) + item;
        ghost var before := out.text;
        out.Write(piece);
        IndexedJoinStep(items, j, [], nextParam, start, before, piece, out.text);
        first := false;
        j := j + 1;
      }
      ghost var body := out.text;
      out.Write(">\n");
      TemplateListParts(parameters, multiline, showDefaults, nextParam, t0, start, body, out.text);
    }
  }

  lemma TemplateListParts(parameters: seq<Parameter>, multiline: bool, showDefaults: bool, sep: string,
                          t0: string, t1: string, t2: string, t3: string)
    requires parameters != [] && sep == TemplateSeparator(multiline, |parameters|)
    requires t1 == t0 + "template<"
    requires t2 == t1 + Opened(TemplateItems(parameters, showDefaults)[..|parameters|], [], sep)
    requires t3 == t2 + ">\n"
    ensures t3 == t0 + TemplateParameterList(parameters, multiline, showDefaults)
  {
    var items := TemplateItems(parameters, showDefaults);
    assert items[..|parameters|] == items;
    Append3(t0, "template<", Join(items, sep), ">\n");
  }

  /** Every parameter without its default. */
  function WithoutDefaults(parameters: seq<Parameter>): seq<Parameter> {
    Map(parameters, (p: Parameter) => p.(defaultValue := []))
  }

  /** Hiding defaults prints the list exactly as if no parameter had a default. */
  lemma DefaultsHidden(parameters: seq<Parameter>, multiline: bool)
    ensures TemplateParameterList(parameters, multiline, false)
         == TemplateParameterList(WithoutDefaults(parameters), multiline, true)
  {
    assert TemplateItems(parameters, false) == TemplateItems(WithoutDefaults(parameters), true);
  }

  // ---------------------------------------------------------------------------
  // quickbook_synopsis (function)
  // ---------------------------------------------------------------------------

  /** What is written before the parameter list, by kind of function. */
  function Head(f: Function): string {
    match f.kind
    case ConstructorDestructor => f.name
    case Member => f.returnType + " " + f.name
    case Free => f.definition
    case Define => "#define " + f.name
    case Unknown => []
  }

  /**
    The source's `offset` accumulator: one for the parenthesis plus the
    width it counts for the head. It is the column right after the opening
    parenthesis, so continuation lines line up with the first parameter.
  */
  function Offset(f: Function): (r: nat)
    ensures r == |Head(f)| + 1
  {
    1 + match f.kind
        case ConstructorDestructor => |f.name|
        case Member => |f.returnType| + 1 + |f.name|
        case Free => |f.definition|
        case Define => 8 + |f.name|
        case Unknown => 0
  }

  /** std::string(n, ' '). */
  function Spaces(n: nat): (r: string)
    ensures |r| == n && forall k :: 0 <= k < n ==> r[k] == ' '
  {
    seq(n, _ => ' ')
  }

  /**
    The separator between parameters. The choice looks at all parameters,
    the skipped ones included.
  */
  function AfterParameter(f: Function, multiline: bool): string {
    if multiline && 2 < |f.parameters| then ",\n" + Spaces(Offset(f)) else ", "
  }

  /** A parameter as the synopsis prints it: type, name and ` = default`. */
  function ParameterText(p: Parameter): string {
    p.fullType + (if p.fullType == [] then "" else " ") + p.name
      + (if p.defaultValue == [] then "" else " = ") + p.defaultValue
  }

  predicate IsShown(p: Parameter) {
    !p.skip
  }

  /** The parameters the synopsis shows: those not marked `skip`, in order. */
  function ShownParameters(parameters: seq<Parameter>): seq<Parameter> {
    Filter(parameters, IsShown)
  }

  /**
    The parenthesised parameter list: the texts between `(` and `)`, and
    for no text `()`, except for a `#define` which then gets nothing.
  */
  function ParameterList(texts: seq<string>, sep: string, kind: FunctionType): (r: string)
    ensures r == [] <==> texts == [] && kind == Define
    ensures texts == [] && kind != Define ==> r == "()"
    ensures texts != [] ==> r[0] == '(' && r[|r| - 1] == ')'
  {
    if texts == [] then (if kind == Define then [] else "()")
    else "(" + Join(texts, sep) + ")"
  }

  /** What the source writes after its parameter loop, from the `first` flag. */
  function ParameterClose(texts: seq<string>, kind: FunctionType): string {
    if texts != [] then ")" else if kind != Define then "()" else []
  }

  lemma ParameterListParts(texts: seq<string>, sep: string, kind: FunctionType, t0: string, t1: string, t2: string)
    requires t1 == t0 + Opened(texts, "(", sep)
    requires t2 == t1 + ParameterClose(texts, kind)
    ensures t2 == t0 + ParameterList(texts, sep, kind)
  {
    if texts != [] {
      AppendAssoc(t0, "(" + Join(texts, sep), ")");
    }
  }

  /** quickbook_synopsis for a function, in a Quickbook code block. */
  function Synopsis(f: Function, multiline: bool, showDefaults: bool): string {
    "``" + TemplateParameterList(f.templateParameters, multiline, showDefaults) + Head(f)
      + ParameterList(Map(ShownParameters(f.parameters), ParameterText), AfterParameter(f, multiline), f.kind)
      + "``\n\n"
  }

  method WriteSynopsis(f: Function, out: OutStream, multiline: bool, showDefaults: bool)
    modifies out
    ensures out.text == old(out.text) + Synopsis(f, multiline, showDefaults)
  {
    ghost var t0 := out.text;
    out.Write("``");
    ghost var t1 := out.text;
    WriteTemplateParameterList(f.templateParameters, out, multiline, showDefaults);
    ghost var t2 := out.text;
    var offset := WriteHead(f, out);
    ghost var t3 := out.text;
    var afterParameter := ", ";
    if multiline && 2 < |f.parameters| {
      afterParameter := ",\n" + Spaces(offset);
    }
    WriteParameterList(f, afterParameter, out);
    ghost var t5 := out.text;
    out.Write("``\n\n");
    SynopsisParts(f, multiline, showDefaults, t0, t1, t2, t3, t5, out.text);
  }

  /** The parameters that are not skipped, each after `(` or the separator, then the closing. */
  method WriteParameterList(f: Function, afterParameter: string, out: OutStream)
    modifies out
    ensures out.text == old(out.text) + ParameterList(Map(ShownParameters(f.parameters), ParameterText), afterParameter, f.kind)
  {
    ghost var t3 := out.text;
    var first := true;
    var j := 0;
    while j < |f.parameters|
      invariant j <= |f.parameters|
      invariant first <==> Filter(f.parameters[..j], IsShown) == []
      invariant out.text == t3 + Opened(Map(Filter(f.parameters[..j], IsShown), ParameterText), "(", afterParameter)
    {
      var p := f.parameters[j];
      if !p.skip {
        var text := p.fullType + (if p.fullType == [] then "" else " ") + p.name
          + (if p.defaultValue == [] then "" else " = ") + p.defaultValue;
        var piece := (if first then "(" else afterParameter) + text;
        ghost var before := out.text;
        out.Write(piece);
        FilteredJoinStep(f.parameters, j, IsShown, ParameterText, "(", afterParameter, t3, before, piece, out.text);
        first := false;
      } else {
        FilterSkip(f.parameters, j, IsShown);
      }
      j := j + 1;
    }
    assert f.parameters[..j] == f.parameters;
    ghost var t4 := out.text;
    if !first {
      out.Write(")");
    } else if f.kind != Define {
      out.Write("()");
    }
    ParameterListParts(Map(ShownParameters(f.parameters), ParameterText), afterParameter, f.kind, t3, t4, out.text);
  }

  /** The head of the synopsis, and the column the parameter list starts at. */
  method WriteHead(f: Function, out: OutStream) returns (offset: nat)
    modifies out
    ensures out.text == old(out.text) + Head(f)
    ensures offset == Offset(f)
  {
    offset := 1;
    match f.kind {
      case ConstructorDestructor =>
        out.Write(f.name);
        offset := offset + |f.name|;
      case Member =>
        out.Write(f.returnType + " " + f.name);
        offset := offset + |f.returnType| + 1 + |f.name|;
      case Free =>
        out.Write(f.definition);
        offset := offset + |f.definition|;
      case Define =>
        out.Write("#define " + f.name);
        offset := offset + 8 + |f.name|;
      case Unknown =>
    }
  }

  lemma SynopsisParts(f: Function, multiline: bool, showDefaults: bool,
                      t0: string, t1: string, t2: string, t3: string, t5: string, t6: string)
    requires t1 == t0 + "``"
    requires t2 == t1 + TemplateParameterList(f.templateParameters, multiline, showDefaults)
    requires t3 == t2 + Head(f)
    requires t5 == t3 + ParameterList(Map(ShownParameters(f.parameters), ParameterText), AfterParameter(f, multiline), f.kind)
    requires t6 == t5 + "``\n\n"
    ensures t6 == t0 + Synopsis(f, multiline, showDefaults)
  {
    Append5(t0, "``", TemplateParameterList(f.templateParameters, multiline, showDefaults), Head(f),
            ParameterList(Map(ShownParameters(f.parameters), ParameterText), AfterParameter(f, multiline), f.kind), "``\n\n");
  }

  /**
    A skipped parameter never appears: the single-line synopsis is the one
    of the function without them.
  */
  lemma SkippedParametersHidden(f: Function, showDefaults: bool)
    ensures Synopsis(f.(parameters := ShownParameters(f.parameters)), false, showDefaults)
         == Synopsis(f, false, showDefaults)
  {
    FilterIdempotent(f.parameters, IsShown);
  }

  /**
    In the multiline synopsis the listed parameters are still exactly the
    shown ones, so the text is the same as without the skipped ones as long
    as dropping them does not move the count across the `2 <` line-break test.
  */
  lemma SkippedParametersHiddenMultiline(f: Function, showDefaults: bool)
    requires (2 < |ShownParameters(f.parameters)|) == (2 < |f.parameters|)
    ensures Synopsis(f.(parameters := ShownParameters(f.parameters)), true, showDefaults)
         == Synopsis(f, true, showDefaults)
  {
    var g := f.(parameters := ShownParameters(f.parameters));
    FilterIdempotent(f.parameters, IsShown);
    assert Head(g) == Head(f) && Offset(g) == Offset(f);
    assert AfterParameter(g, true) == AfterParameter(f, true);
    assert Map(ShownParameters(g.parameters), ParameterText) == Map(ShownParameters(f.parameters), ParameterText);
  }

  /**
    The line-break test counts the skipped parameters too: with two shown
    parameters and a third one skipped, the two shown ones are separated by
    a line break and `offset` spaces, which the same function without the
    skipped parameter does not get.
  */
  lemma SkippedParametersCountForSeparator(f: Function, showDefaults: bool)
    requires |ShownParameters(f.parameters)| == 2 < |f.parameters|
    ensures AfterParameter(f, true) == ",\n" + Spaces(Offset(f))
    ensures AfterParameter(f.(parameters := ShownParameters(f.parameters)), true) == ", "
    ensures |Synopsis(f, true, showDefaults)|
         == |Synopsis(f.(parameters := ShownParameters(f.parameters)), true, showDefaults)| + Offset(f)
  {
    var g := f.(parameters := ShownParameters(f.parameters));
    FilterIdempotent(f.parameters, IsShown);
    var texts := Map(ShownParameters(f.parameters), ParameterText);
    assert Map(ShownParameters(g.parameters), ParameterText) == texts;
    assert Head(g) == Head(f) && Offset(g) == Offset(f);
    JoinTwoLength(texts, AfterParameter(f, true));
    JoinTwoLength(texts, AfterParameter(g, true));
  }

  /** Two parts joined: both parts and one separator. */
  lemma JoinTwoLength(parts: seq<string>, sep: string)
    requires |parts| == 2
    ensures |Join(parts, sep)| == |parts[0]| + |sep| + |parts[1]|
  {
    assert Join(parts[1..], sep) == parts[1];
  }

  /** The parameters shown are exactly the ones not marked `skip`. */
  lemma ShownParametersMembers(parameters: seq<Parameter>)
    ensures forall p :: p in ShownParameters(parameters) <==> p in parameters && !p.skip
  {
    FilterMembers(parameters, IsShown);
  }

  /**
    Lists of at most two parameters (and at most two template parameters)
    stay on one line even in multi-line mode.
  */
  lemma ShortListsOnOneLine(f: Function, showDefaults: bool)
    requires |f.parameters| <= 2 && |f.templateParameters| <= 2
    ensures Synopsis(f, true, showDefaults) == Synopsis(f, false, showDefaults)
  {
    assert AfterParameter(f, true) == AfterParameter(f, false);
    assert TemplateSeparator(true, |f.templateParameters|) == TemplateSeparator(false, |f.templateParameters|);
  }

  // ---------------------------------------------------------------------------
  // quickbook_synopsis (enumeration)
  // ---------------------------------------------------------------------------

  /** An enumeration value: its name, and ` = initializer` with the initializer trimmed. */
  function EnumValueText(v: EnumerationValue): string {
    v.name + (if v.initializer == [] then [] else " = " + Trim(v.initializer))
  }

  function EnumValueTexts(values: seq<EnumerationValue>): seq<string> {
    Map(values, EnumValueText)
  }

  /** The value list: ` {`, the values separated by `, `, and `};`; nothing when there are no values. */
  function EnumValueList(texts: seq<string>): string {
    if texts == [] then [] else " {" + Join(texts, ", ") + "};"
  }

  /** quickbook_synopsis for an enumeration. */
  function EnumSynopsis(e: Enumeration): string {
    "``enum " + e.name + EnumValueList(EnumValueTexts(e.values)) + "``\n\n"
  }

  method WriteEnumSynopsis(e: Enumeration, out: OutStream)
    modifies out
    ensures out.text == old(out.text) + EnumSynopsis(e)
  {
    ghost var t0 := out.text;
    out.Write("``enum " + e.name);
    ghost var start := out.text;
    ghost var items := EnumValueTexts(e.values);
    var first := true;
    var j := 0;
    while j < |e.values|
      invariant j <= |e.values|
      invariant first <==> j == 0
      invariant out.text == start + Opened(items[..j], " {", ", ")
    {
      var value := e.values[j];
      var text := value.name;
      if value.initializer != [] {
        text := text + (" = " + Trim(value.initializer));
      }
      assert items[j] == EnumValueText(value);
      assert text == items[j];
      var piece := (if first then " {" else ", ") + text;
      ghost var before := out.text;
      out.Write(piece);
      IndexedJoinStep(items, j, " {", ", ", start, before, piece, out.text);
      first := false;
      j := j + 1;
    }
    ghost var body := out.text;
    if !first {
      out.Write("};");
    }
    ghost var closed := out.text;
    out.Write("``\n\n");
    EnumSynopsisParts(e, t0, start, body, closed, out.text);
  }

  lemma EnumSynopsisParts(e: Enumeration, t0: string, t1: string, t2: string, t3: string, t4: string)
    requires t1 == t0 + ("``enum " + e.name)
    requires t2 == t1 + Opened(EnumValueTexts(e.values)[..|e.values|], " {", ", ")
    requires t3 == t2 + (if e.values != [] then "};" else [])
    requires t4 == t3 + "``\n\n"
    ensures t4 == t0 + EnumSynopsis(e)
  {
    var items := EnumValueTexts(e.values);
    assert items[..|e.values|] == items;
    var name := "``enum " + e.name;
    if e.values == [] {
      AppendAssoc(t0, name, "``\n\n");
    } else {
      var valueList := " {" + Join(items, ", ");
      Append4(t0, name, valueList, "};", "``\n\n");
      AppendAssoc(name, valueList, "};");
    }
  }

  /**
    Only the trimmed initializer is printed: an initializer that is not all
    white space prints as its trimmed form would.
  */
  lemma EnumInitializerTrimmed(v: EnumerationValue)
    requires Trim(v.initializer) != []
    ensures EnumValueText(v) == EnumValueText(v.(initializer := Trim(v.initializer)))
  {
    TrimIdempotent(v.initializer);
  }

  // ---------------------------------------------------------------------------
  // quickbook_markup
  // ---------------------------------------------------------------------------

  /** The markup selected for a place in the output: the given type and order. */
  function MarkupMatches(order: MarkupOrder, kind: MarkupType): Markup -> bool {
    (m: Markup) => m.kind == kind && m.order == order
  }

  function MarkupLine(m: Markup): string {
    m.value + "\n"
  }

  /**
    quickbook_markup: every selected value on its own line, in order, and
    one empty line after them when there was any.
  */
  function MarkupText(qbkMarkup: seq<Markup>, order: MarkupOrder, kind: MarkupType): string {
    var selected := Filter(qbkMarkup, MarkupMatches(order, kind));
    Concat(Map(selected, MarkupLine)) + (if selected == [] then [] else "\n")
  }

  method WriteMarkup(qbkMarkup: seq<Markup>, order: MarkupOrder, kind: MarkupType, out: OutStream)
    modifies out
    ensures out.text == old(out.text) + MarkupText(qbkMarkup, order, kind)
  {
    ghost var start := out.text;
    var hasOutput := false;
    var j := 0;
    while j < |qbkMarkup|
      invariant j <= |qbkMarkup|
      invariant hasOutput <==> Filter(qbkMarkup[..j], MarkupMatches(order, kind)) != []
      invariant out.text == start + Concat(Map(Filter(qbkMarkup[..j], MarkupMatches(order, kind)), MarkupLine))
    {
      var inc := qbkMarkup[j];
      if inc.kind == kind && inc.order == order {
        ghost var before := out.text;
        out.Write(inc.value + "\n");
        FilteredConcatWrite(qbkMarkup, j, MarkupMatches(order, kind), MarkupLine, start, before, out.text);
        hasOutput := true;
      } else {
        FilterSkip(qbkMarkup, j, MarkupMatches(order, kind));
      }
      j := j + 1;
    }
    assert qbkMarkup[..j] == qbkMarkup;
    ghost var t1 := out.text;
    if hasOutput {
      out.Write("\n");
    }
    MarkupParts(qbkMarkup, order, kind, start, t1, out.text);
  }

  lemma MarkupParts(qbkMarkup: seq<Markup>, order: MarkupOrder, kind: MarkupType, t0: string, t1: string, t2: string)
    requires t1 == t0 + Concat(Map(Filter(qbkMarkup, MarkupMatches(order, kind)), MarkupLine))
    requires t2 == t1 + (if Filter(qbkMarkup, MarkupMatches(order, kind)) == [] then [] else "\n")
    ensures t2 == t0 + MarkupText(qbkMarkup, order, kind)
  {
    var selected := Filter(qbkMarkup, MarkupMatches(order, kind));
    AppendAssoc(t0, Concat(Map(selected, MarkupLine)), if selected == [] then [] else "\n");
  }

  /** Nothing at all is written exactly when no markup has the requested type and order. */
  lemma MarkupEmptyIff(qbkMarkup: seq<Markup>, order: MarkupOrder, kind: MarkupType)
    ensures MarkupText(qbkMarkup, order, kind) == []
        <==> forall m :: m in qbkMarkup ==> !(m.kind == kind && m.order == order)
  {
    FilterMembers(qbkMarkup, MarkupMatches(order, kind));
    if forall m :: m in qbkMarkup ==> !(m.kind == kind && m.order == order) {
      FilterNone(qbkMarkup, MarkupMatches(order, kind));
    }
  }

  /** Each selected value is written on a line of its own, in order. */
  lemma MarkupLines(qbkMarkup: seq<Markup>, order: MarkupOrder, kind: MarkupType, m: Markup)
    requires Filter(qbkMarkup, MarkupMatches(order, kind)) == [m]
    ensures MarkupText(qbkMarkup, order, kind) == m.value + "\n\n"
  {
    MapSingle(m, MarkupLine);
    ConcatSingle(MarkupLine(m));
    AppendAssoc(m.value, "\n", "\n");
  }

  // ---------------------------------------------------------------------------
  // quickbook_string_with_heading_if_present
  // ---------------------------------------------------------------------------

  /** A heading followed by the escaped contents, or nothing when there are no contents. */
  function StringWithHeadingIfPresent(heading: string, contents: string): (r: string)
    ensures r == [] <==> contents == []
  {
    if contents == [] then [] else "[heading " + heading + "]\n" + Escape(contents, 0) + "\n\n"
  }

  method WriteStringWithHeadingIfPresent(heading: string, contents: string, out: OutStream)
    modifies out
    ensures out.text == old(out.text) + StringWithHeadingIfPresent(heading, contents)
  {
    if contents != [] {
      var escaped := QbkEscaped(contents);
      out.Write("[heading " + heading + "]\n" + escaped + "\n\n");
    }
  }

  /** Contents without underscores are written as they are. */
  lemma HeadingPlainContents(heading: string, contents: string)
    requires contents != [] && '_' !in contents
    ensures StringWithHeadingIfPresent(heading, contents) == "[heading " + heading + "]\n" + contents + "\n\n"
  {
    EscapeWithoutUnderscore(contents, 0);
  }

  // ---------------------------------------------------------------------------
  // quickbook_short_output
  // ---------------------------------------------------------------------------

  /** The description entry of one parameter. */
  function ParameterEntry(p: Parameter): string {
    "[* " + p.fullType + "]: ['" + p.name + "]:  " + p.briefDescription + "\n\n"
  }

  /** The Returns cell, present only when there is a return description. */
  function ReturnsText(returnDescription: string): string {
    if returnDescription == [] then [] else "][\n" + returnDescription + "\n\n"
  }

  /** quickbook_short_output: the entries of the shown parameters, then the Returns cell. */
  function ShortOutput(f: Function): string {
    Concat(Map(ShownParameters(f.parameters), ParameterEntry)) + "\n\n" + ReturnsText(f.returnDescription) + "\n"
  }

  method WriteShortOutput(f: Function, out: OutStream)
    modifies out
    ensures out.text == old(out.text) + ShortOutput(f)
  {
    ghost var start := out.text;
    var j := 0;
    while j < |f.parameters|
      invariant j <= |f.parameters|
      invariant out.text == start + Concat(Map(Filter(f.parameters[..j], IsShown), ParameterEntry))
    {
      var p := f.parameters[j];
      if !p.skip {
        ghost var before := out.text;
        out.Write("[* " + p.fullType + "]: ['" + p.name + "]:  " + p.briefDescription + "\n\n");
        FilteredConcatWrite(f.parameters, j, IsShown, ParameterEntry, start, before, out.text);
      } else {
        FilterSkip(f.parameters, j, IsShown);
      }
      j := j + 1;
    }
    assert f.parameters[..j] == f.parameters;
    ghost var t1 := out.text;
    out.Write("\n\n");
    ghost var t2 := out.text;
    if f.returnDescription != [] {
      out.Write("][\n" + f.returnDescription + "\n\n");
    }
    ghost var t3 := out.text;
    out.Write("\n");
    ShortOutputParts(f, start, t1, t2, t3, out.text);
  }

  lemma ShortOutputParts(f: Function, t0: string, t1: string, t2: string, t3: string, t4: string)
    requires t1 == t0 + Concat(Map(ShownParameters(f.parameters), ParameterEntry))
    requires t2 == t1 + "\n\n"
    requires t3 == t2 + ReturnsText(f.returnDescription)
    requires t4 == t3 + "\n"
    ensures t4 == t0 + ShortOutput(f)
  {
    Append4(t0, Concat(Map(ShownParameters(f.parameters), ParameterEntry)), "\n\n", ReturnsText(f.returnDescription), "\n");
  }

  /** Skipped parameters get no entry: the output is the one of the function without them. */
  lemma ShortOutputHidesSkipped(f: Function)
    ensures ShortOutput(f.(parameters := ShownParameters(f.parameters))) == ShortOutput(f)
  {
    FilterIdempotent(f.parameters, IsShown);
  }

  // ---------------------------------------------------------------------------
  // quickbook_output_indexterm
  // ---------------------------------------------------------------------------

  function IndexEntry(part: string): string {
    "<indexterm><primary>" + part + "</primary></indexterm>"
  }

  /** quickbook_output_indexterm: one index entry per term, inside a raw-XML block. */
  function Indexterm(term: string): string {
    "'''" + Concat(Map(IndextermParts(term), IndexEntry)) + "'''\n"
  }

  method WriteIndexterm(term: string, out: OutStream)
    modifies out
    ensures out.text == old(out.text) + Indexterm(term)
  {
    ghost var t0 := out.text;
    out.Write("'''");
    ghost var start := out.text;
    if Contains(term, "::") {
      var forSplit := ReplaceAll(term, "::", ":");
      var splitted := SplitCompress(forSplit, ':');
      ghost var entries := Map(splitted, IndexEntry);
      var j := 0;
      while j < |splitted|
        invariant j <= |splitted|
        invariant out.text == start + Concat(entries[..j])
      {
        var part := splitted[j];
        ghost var before := out.text;
        out.Write("<indexterm><primary>" + part + "</primary></indexterm>");
        ConcatWrite(entries, j, start, before, out.text);
        j := j + 1;
      }
      assert entries[..j] == entries;
    } else {
      out.Write("<indexterm><primary>" + term);
      out.Write("</primary></indexterm>");
      MapSingle(term, IndexEntry);
      ConcatSingle(IndexEntry(term));
      AppendAssoc(start, "<indexterm><primary>" + term, "</primary></indexterm>");
    }
    ghost var t2 := out.text;
    out.Write("'''\n");
    IndextermParts3(term, t0, start, t2, out.text);
  }

  lemma IndextermParts3(term: string, t0: string, t1: string, t2: string, t3: string)
    requires t1 == t0 + "'''"
    requires t2 == t1 + Concat(Map(IndextermParts(term), IndexEntry))
    requires t3 == t2 + "'''\n"
    ensures t3 == t0 + Indexterm(term)
  {
    Append3(t0, "'''", Concat(Map(IndextermParts(term), IndexEntry)), "'''\n");
  }

  /** A qualified name is indexed under each namespace and under its own name, in order. */
  lemma IndextermOfQualified(parts: seq<string>)
    requires |parts| >= 2
    requires forall p <- parts :: p != [] && ':' !in p
    ensures Indexterm(Join(parts, "::")) == "'''" + Concat(Map(parts, IndexEntry)) + "'''\n"
  {
    IndextermPartsOfQualified(parts);
  }

  /** A name without `::` gets a single entry. */
  lemma IndextermPlain(term: string)
    requires !Contains(term, "::")
    ensures Indexterm(term) == "'''" + IndexEntry(term) + "'''\n"
  {
    assert IndextermParts(term) == [term];
    MapSingle(term, IndexEntry);
    ConcatSingle(IndexEntry(term));
  }

  // ---------------------------------------------------------------------------
  // quickbook_output_function (table with synopses)
  // ---------------------------------------------------------------------------

  function OfKind(kind: FunctionType): Function -> bool {
    (f: Function) => f.kind == kind
  }

  /** The heading row; constructors and destructors have no Returns column. */
  function ReturnsColumn(kind: FunctionType): (r: string)
    ensures r == [] <==> kind == ConstructorDestructor
  {
    if kind == ConstructorDestructor then "" else " [Returns]"
  }

  function TableHeading(title: string, kind: FunctionType): string {
    "[heading " + title + "(s)]\n" + "[table\n" + "[[Function] [Description] [Parameters] " + ReturnsColumn(kind) + "]\n"
  }

  /** A table row: the one-line synopsis, the brief description and the parameter descriptions. */
  function FunctionRow(f: Function): string {
    "[[" + Synopsis(f, false, true) + ("] [" + f.briefDescription + "] [") + ShortOutput(f) + "]]\n"
  }

  /** quickbook_output_function: a table with one row per function of the requested kind. */
  function FunctionTable(functions: seq<Function>, kind: FunctionType, title: string): string {
    TableHeading(title, kind) + Concat(Map(Filter(functions, OfKind(kind)), FunctionRow)) + "]\n\n"
  }

  method WriteFunctionTable(functions: seq<Function>, kind: FunctionType, title: string, out: OutStream)
    modifies out
    ensures out.text == old(out.text) + FunctionTable(functions, kind, title)
  {
    var returnsColumn := if kind == ConstructorDestructor then "" else " [Returns]";
    ghost var t0 := out.text;
    out.Write("[heading " + title + "(s)]\n" + "[table\n" + "[[Function] [Description] [Parameters] " + returnsColumn + "]\n");
    ghost var start := out.text;
    var j := 0;
    while j < |functions|
      invariant j <= |functions|
      invariant out.text == start + Concat(Map(Filter(functions[..j], OfKind(kind)), FunctionRow))
    {
      var f := functions[j];
      if f.kind == kind {
        ghost var before := out.text;
        out.Write("[[");
        ghost var r1 := out.text;
        WriteSynopsis(f, out, false, true);
        ghost var r2 := out.text;
        out.Write("] [" + f.briefDescription + "] [");
        ghost var r3 := out.text;
        WriteShortOutput(f, out);
        ghost var r4 := out.text;
        out.Write("]]\n");
        FunctionRowParts(f, before, r1, r2, r3, r4, out.text);
        FilteredConcatWrite(functions, j, OfKind(kind), FunctionRow, start, before, out.text);
      } else {
        FilterSkip(functions, j, OfKind(kind));
      }
      j := j + 1;
    }
    assert functions[..j] == functions;
    ghost var rows := out.text;
    out.Write("]\n\n");
    FunctionTableParts(functions, kind, title, t0, start, rows, out.text);
  }

  lemma FunctionRowParts(f: Function, t0: string, t1: string, t2: string, t3: string, t4: string, t5: string)
    requires t1 == t0 + "[["
    requires t2 == t1 + Synopsis(f, false, true)
    requires t3 == t2 + ("] [" + f.briefDescription + "] [")
    requires t4 == t3 + ShortOutput(f)
    requires t5 == t4 + "]]\n"
    ensures t5 == t0 + FunctionRow(f)
  {
    Append5(t0, "[[", Synopsis(f, false, true), "] [" + f.briefDescription + "] [", ShortOutput(f), "]]\n");
  }

  lemma FunctionTableParts(functions: seq<Function>, kind: FunctionType, title: string,
                           t0: string, t1: string, t2: string, t3: string)
    requires t1 == t0 + TableHeading(title, kind)
    requires t2 == t1 + Concat(Map(Filter(functions, OfKind(kind)), FunctionRow))
    requires t3 == t2 + "]\n\n"
    ensures t3 == t0 + FunctionTable(functions, kind, title)
  {
    Append3(t0, TableHeading(title, kind), Concat(Map(Filter(functions, OfKind(kind)), FunctionRow)), "]\n\n");
  }

  /** A function of another kind adds no row. */
  lemma OtherKindsIgnored(functions: seq<Function>, g: Function, kind: FunctionType, title: string)
    requires g.kind != kind
    ensures FunctionTable(functions + [g], kind, title) == FunctionTable(functions, kind, title)
  {
    FilterSnoc(functions, g, OfKind(kind));
    assert !OfKind(kind)(g);
    assert Filter(functions + [g], OfKind(kind)) == Filter(functions, OfKind(kind));
  }

  /** A function of the requested kind adds its row at the end of the table. */
  lemma MatchingKindAppended(functions: seq<Function>, g: Function, title: string)
    ensures FunctionTable(functions + [g], g.kind, title)
         == TableHeading(title, g.kind) + Concat(Map(Filter(functions, OfKind(g.kind)), FunctionRow))
            + FunctionRow(g) + "]\n\n"
  {
    var kept := Filter(functions, OfKind(g.kind));
    FilterSnoc(functions, g, OfKind(g.kind));
    MapSnoc(kept, g, FunctionRow);
    ConcatSnoc(Map(kept, FunctionRow), FunctionRow(g));
    AppendAssoc(TableHeading(title, g.kind), Concat(Map(kept, FunctionRow)), FunctionRow(g));
  }

  // ---------------------------------------------------------------------------
  // quickbook_output_function (index table with links)
  // ---------------------------------------------------------------------------

  /** The start of the link to function i, when an index id path is configured. */
  function IndexLink(config: Configuration, qbkIdPrefix: string, i: nat): string {
    if config.indexIdPath == [] then []
    else "[link " + config.indexIdPath + "." + qbkIdPrefix + DecimalString(i) + " "
  }

  function IndexLinkEnd(config: Configuration): string {
    if config.indexIdPath == [] then [] else "]"
  }

  /** The row of function i: its short synopsis (linked when configured) and brief description. */
  function IndexRow(f: Function, i: nat, config: Configuration, qbkIdPrefix: string): string {
    "[[" + IndexLink(config, qbkIdPrefix, i) + ("`" + SynopsisShort(f) + "`") + IndexLinkEnd(config)
      + ("][" + f.briefDescription + "]]\n")
  }

  /** The row of function i when it is listed, or nothing. */
  function ListedRow(f: Function, i: nat, kind: FunctionType, config: Configuration,
                     qbkIdPrefix: string, displayAll: bool): string {
    if displayAll || f.kind == kind then IndexRow(f, i, config, qbkIdPrefix) else []
  }

  /** Row i of the table, for the function at position i. */
  function RowOf(kind: FunctionType, config: Configuration, qbkIdPrefix: string, displayAll: bool): (Function, nat) -> string {
    (f: Function, i: nat) => ListedRow(f, i, kind, config, qbkIdPrefix, displayAll)
  }

  /** quickbook_output_function with a link prefix: the index table of the functions. */
  function IndexTable(functions: seq<Function>, kind: FunctionType, config: Configuration,
                      qbkIdPrefix: string, displayAll: bool): string {
    "[table\n" + "[[Function][Description]]\n" + IndexRows(functions, kind, config, qbkIdPrefix, displayAll) + "]\n\n"
  }

  /** The rows of the index table, one per function, empty for a function that is not listed. */
  function IndexRows(functions: seq<Function>, kind: FunctionType, config: Configuration,
                     qbkIdPrefix: string, displayAll: bool): string {
    Concat(Indexed(functions, |functions|, RowOf(kind, config, qbkIdPrefix, displayAll)))
  }

  method WriteIndexTable(functions: seq<Function>, kind: FunctionType, config: Configuration,
                         qbkIdPrefix: string, out: OutStream, displayAll: bool)
    modifies out
    ensures out.text == old(out.text) + IndexTable(functions, kind, config, qbkIdPrefix, displayAll)
  {
    ghost var t0 := out.text;
    out.Write("[table\n" + "[[Function][Description]]\n");
    ghost var start := out.text;
    ghost var rows := Indexed(functions, |functions|, RowOf(kind, config, qbkIdPrefix, displayAll));
    var i: nat := 0;
    while i < |functions|
      invariant i <= |functions|
      invariant out.text == start + Concat(rows[..i])
    {
      ghost var before := out.text;
      WriteListedRow(functions[i], i, kind, config, qbkIdPrefix, displayAll, out);
      IndexedPiece(functions, |functions|, RowOf(kind, config, qbkIdPrefix, displayAll), i);
      ConcatWrite(rows, i, start, before, out.text);
      i := i + 1;
    }
    assert rows[..i] == rows;
    ghost var body := out.text;
    out.Write("]\n\n");
    IndexTableParts(functions, kind, config, qbkIdPrefix, displayAll, t0, start, body, out.text);
  }

  /** The loop body: the row of function i when it is listed. */
  method WriteListedRow(f: Function, i: nat, kind: FunctionType, config: Configuration, qbkIdPrefix: string,
                        displayAll: bool, out: OutStream)
    modifies out
    ensures out.text == old(out.text) + ListedRow(f, i, kind, config, qbkIdPrefix, displayAll)
  {
    if displayAll || f.kind == kind {
      WriteIndexRow(f, i, config, qbkIdPrefix, out);
    }
  }

  /** One row of the index table. */
  method WriteIndexRow(f: Function, i: nat, config: Configuration, qbkIdPrefix: string, out: OutStream)
    modifies out
    ensures out.text == old(out.text) + IndexRow(f, i, config, qbkIdPrefix)
  {
    ghost var t0 := out.text;
    out.Write("[[");
    ghost var t1 := out.text;
    if config.indexIdPath != [] {
      out.Write("[link " + config.indexIdPath + "." + qbkIdPrefix + DecimalString(i) + " ");
    }
    ghost var t2 := out.text;
    out.Write("`");
    ghost var t3 := out.text;
    WriteSynopsisShort(f, out);
    ghost var t4 := out.text;
    out.Write("`");
    ghost var t5 := out.text;
    if config.indexIdPath != [] {
      out.Write("]");
    }
    ghost var t6 := out.text;
    out.Write("][" + f.briefDescription + "]]\n");
    IndexRowParts(f, i, config, qbkIdPrefix, t0, t1, t2, t3, t4, t5, t6, out.text);
  }

  lemma IndexRowParts(f: Function, i: nat, config: Configuration, qbkIdPrefix: string,
                      t0: string, t1: string, t2: string, t3: string, t4: string, t5: string, t6: string, t7: string)
    requires t1 == t0 + "[["
    requires t2 == t1 + IndexLink(config, qbkIdPrefix, i)
    requires t3 == t2 + "`" && t4 == t3 + SynopsisShort(f) && t5 == t4 + "`"
    requires t6 == t5 + IndexLinkEnd(config)
    requires t7 == t6 + ("][" + f.briefDescription + "]]\n")
    ensures t7 == t0 + IndexRow(f, i, config, qbkIdPrefix)
  {
    Append3(t2, "`", SynopsisShort(f), "`");
    Append5(t0, "[[", IndexLink(config, qbkIdPrefix, i), "`" + SynopsisShort(f) + "`", IndexLinkEnd(config),
            "][" + f.briefDescription + "]]\n");
  }

  lemma IndexTableParts(functions: seq<Function>, kind: FunctionType, config: Configuration,
                        qbkIdPrefix: string, displayAll: bool, t0: string, t1: string, t2: string, t3: string)
    requires t1 == t0 + ("[table\n" + "[[Function][Description]]\n")
    requires t2 == t1 + IndexRows(functions, kind, config, qbkIdPrefix, displayAll)
    requires t3 == t2 + "]\n\n"
    ensures t3 == t0 + IndexTable(functions, kind, config, qbkIdPrefix, displayAll)
  {
    Append3(t0, "[table\n" + "[[Function][Description]]\n", IndexRows(functions, kind, config, qbkIdPrefix, displayAll), "]\n\n");
  }

  /** A function gets a row exactly when all are displayed or it has the requested kind. */
  lemma IndexRowListed(functions: seq<Function>, kind: FunctionType, config: Configuration,
                       qbkIdPrefix: string, displayAll: bool, i: nat)
    requires i < |functions|
    ensures Indexed(functions, |functions|, RowOf(kind, config, qbkIdPrefix, displayAll))[i] != []
        <==> displayAll || functions[i].kind == kind
  {
    IndexedAt(functions, |functions|, RowOf(kind, config, qbkIdPrefix, displayAll));
  }

  /**
    The table has no rows at all exactly when no function is listed: nothing
    is displayed wholesale and no function has the requested kind.
  */
  lemma IndexRowsEmpty(functions: seq<Function>, kind: FunctionType, config: Configuration,
                       qbkIdPrefix: string, displayAll: bool)
    ensures IndexRows(functions, kind, config, qbkIdPrefix, displayAll) == []
        <==> forall i :: 0 <= i < |functions| ==> !displayAll && functions[i].kind != kind
  {
    var rows := Indexed(functions, |functions|, RowOf(kind, config, qbkIdPrefix, displayAll));
    ConcatEmpty(rows);
    forall i | 0 <= i < |functions|
      ensures rows[i] == [] <==> !displayAll && functions[i].kind != kind
    {
      IndexRowListed(functions, kind, config, qbkIdPrefix, displayAll, i);
    }
  }

  /** Different rows link to different anchors: the link ends in the row's index, in decimal. */
  lemma IndexLinksDistinct(config: Configuration, qbkIdPrefix: string, i: nat, j: nat)
    requires config.indexIdPath != [] && i != j
    ensures IndexLink(config, qbkIdPrefix, i) != IndexLink(config, qbkIdPrefix, j)
  {
    var stem := "[link " + config.indexIdPath + "." + qbkIdPrefix;
    var a, b := DecimalString(i), DecimalString(j);
    if IndexLink(config, qbkIdPrefix, i) == IndexLink(config, qbkIdPrefix, j) {
      assert stem + a + " " == stem + b + " ";
      assert |a| == |b|;
      assert a == (stem + a + " ")[|stem|..|stem| + |a|];
      assert b == (stem + b + " ")[|stem|..|stem| + |b|];
      DecimalRoundTrip(i);
      DecimalRoundTrip(j);
      assert false;
    }
  }

  // ---------------------------------------------------------------------------
  // quickbook_header
  // ---------------------------------------------------------------------------

  /** Whether a convenience header includes the location; reading the header is done by the caller's predicate. */
  function IncludesLocation(config: Configuration, location: string, includes: (string, string) -> bool): string -> bool {
    header => includes(config.convenienceHeaderPath + header, location)
  }

  function IncludeLine(startInclude: string, header: string): string {
    "`#include <" + startInclude + header + ">`\n"
  }

  function IncludeLines(startInclude: string, headers: seq<string>): seq<string> {
    Map(headers, h => IncludeLine(startInclude, h))
  }

  /** The convenience headers that may be included instead, when there are any. */
  function Alternatives(startInclude: string, headers: seq<string>): string {
    if headers == [] then []
    else ("Either" + (if |headers| > 1 then " one of" else "") + "\n\n"
          + Concat(IncludeLines(startInclude, headers)) + "\nOr\n\n")
  }

  /** quickbook_header: how to include the file that defines an element, when its location is known. */
  function Header(location: string, config: Configuration, includes: (string, string) -> bool): (r: string)
    ensures r == [] <==> location == []
  {
    if location == [] then []
    else
      "[heading Header]\n"
      + Alternatives(config.startInclude, Filter(config.convenienceHeaders, IncludesLocation(config, location, includes)))
      + ("`#include <" + location + ">`\n") + "\n"
  }

  method WriteHeader(location: string, config: Configuration, includes: (string, string) -> bool, out: OutStream)
    modifies out
    ensures out.text == old(out.text) + Header(location, config, includes)
  {
    if location != [] {
      var includingHeaders := IncludingHeaders(location, config, includes);
      ghost var t0 := out.text;
      out.Write("[heading Header]\n");
      ghost var t1 := out.text;
      if includingHeaders != [] {
        out.Write("Either" + (if |includingHeaders| > 1 then " one of" else "") + "\n\n");
        ghost var start := out.text;
        ghost var lines := IncludeLines(config.startInclude, includingHeaders);
        var k := 0;
        while k < |includingHeaders|
          invariant k <= |includingHeaders|
          invariant out.text == start + Concat(lines[..k])
        {
          ghost var before := out.text;
          out.Write("`#include <" + config.startInclude + includingHeaders[k] + ">`\n");
          ConcatWrite(lines, k, start, before, out.text);
          k := k + 1;
        }
        assert lines[..k] == lines;
        ghost var body := out.text;
        out.Write("\nOr\n\n");
        AlternativesParts(config.startInclude, includingHeaders, t1, start, body, out.text);
      }
      ghost var t2 := out.text;
      out.Write("`#include <" + location + ">`\n");
      ghost var t3 := out.text;
      out.Write("\n");
      HeaderParts(location, config, includes, t0, t1, t2, t3, out.text);
    }
  }

  /** The convenience headers that include the location, in configuration order. */
  method IncludingHeaders(location: string, config: Configuration, includes: (string, string) -> bool)
    returns (includingHeaders: seq<string>)
    ensures includingHeaders == Filter(config.convenienceHeaders, IncludesLocation(config, location, includes))
    ensures forall h :: h in includingHeaders <==> h in config.convenienceHeaders && includes(config.convenienceHeaderPath + h, location)
  {
    includingHeaders := [];
    var j := 0;
    while j < |config.convenienceHeaders|
      invariant j <= |config.convenienceHeaders|
      invariant includingHeaders == Filter(config.convenienceHeaders[..j], IncludesLocation(config, location, includes))
    {
      var header := config.convenienceHeaders[j];
      FilterStep(config.convenienceHeaders, j, IncludesLocation(config, location, includes));
      if includes(config.convenienceHeaderPath + header, location) {
        includingHeaders := includingHeaders + [header];
      }
      j := j + 1;
    }
    assert config.convenienceHeaders[..j] == config.convenienceHeaders;
    FilterMembers(config.convenienceHeaders, IncludesLocation(config, location, includes));
  }

  lemma AlternativesParts(startInclude: string, headers: seq<string>, t0: string, t1: string, t2: string, t3: string)
    requires headers != []
    requires t1 == t0 + ("Either" + (if |headers| > 1 then " one of" else "") + "\n\n")
    requires t2 == t1 + Concat(IncludeLines(startInclude, headers))
    requires t3 == t2 + "\nOr\n\n"
    ensures t3 == t0 + Alternatives(startInclude, headers)
  {
    Append3(t0, "Either" + (if |headers| > 1 then " one of" else "") + "\n\n", Concat(IncludeLines(startInclude, headers)), "\nOr\n\n");
  }

  lemma HeaderParts(location: string, config: Configuration, includes: (string, string) -> bool,
                    t0: string, t1: string, t2: string, t3: string, t4: string)
    requires location != []
    requires t1 == t0 + "[heading Header]\n"
    requires t2 == t1 + Alternatives(config.startInclude, Filter(config.convenienceHeaders, IncludesLocation(config, location, includes)))
    requires t3 == t2 + ("`#include <" + location + ">`\n")
    requires t4 == t3 + "\n"
    ensures t4 == t0 + Header(location, config, includes)
  {
    Append4(t0, "[heading Header]\n",
            Alternatives(config.startInclude, Filter(config.convenienceHeaders, IncludesLocation(config, location, includes))),
            "`#include <" + location + ">`\n", "\n");
  }

  /** When no convenience header includes the location, only the location itself is offered. */
  lemma HeaderWithoutAlternatives(location: string, config: Configuration, includes: (string, string) -> bool)
    requires location != []
    requires forall h <- config.convenienceHeaders :: !includes(config.convenienceHeaderPath + h, location)
    ensures Header(location, config, includes) == "[heading Header]\n" + ("`#include <" + location + ">`\n") + "\n"
  {
    FilterNone(config.convenienceHeaders, IncludesLocation(config, location, includes));
  }

  // ---------------------------------------------------------------------------
  // quickbook_synopsis_short
  // ---------------------------------------------------------------------------

  /** The head of the short synopsis: the bare name, or `#define name`. */
  function ShortHead(f: Function): string {
    match f.kind
    case ConstructorDestructor => f.name
    case Member => f.name
    case Free => f.name
    case Define => "#define " + f.name
    case Unknown => []
  }

  /** The short synopsis lists a parameter only when it is shown and has no default. */
  predicate IsShortShown(p: Parameter) {
    !p.skip && p.defaultValue == []
  }

  predicate HasNoDefault(p: Parameter) {
    p.defaultValue == []
  }

  /** A parameter of the short synopsis: its type with template arguments collapsed. */
  function ShortText(p: Parameter): string {
    Removed(p.fullType)
  }

  /** quickbook_synopsis_short: name and the types of the required parameters. */
  function SynopsisShort(f: Function): string {
    ShortHead(f) + ParameterList(Map(Filter(f.parameters, IsShortShown), ShortText), ", ", f.kind)
  }

  /** The switch of quickbook_synopsis_short. */
  method WriteShortHead(f: Function, out: OutStream)
    modifies out
    ensures out.text == old(out.text) + ShortHead(f)
  {
    match f.kind {
      case ConstructorDestructor =>
        out.Write(f.name);
      case Member =>
        out.Write(f.name);
      case Free =>
        out.Write(f.name);
      case Define =>
        out.Write("#define " + f.name);
      case Unknown =>
    }
  }

  method WriteSynopsisShort(f: Function, out: OutStream)
    modifies out
    ensures out.text == old(out.text) + SynopsisShort(f)
  {
    ghost var t0 := out.text;
    WriteShortHead(f, out);
    WriteShortParameterList(f, out);
    AppendAssoc(t0, ShortHead(f), ParameterList(Map(Filter(f.parameters, IsShortShown), ShortText), ", ", f.kind));
  }

  /** The parameter loop of quickbook_synopsis_short and the closing parenthesis. */
  method WriteShortParameterList(f: Function, out: OutStream)
    modifies out
    ensures out.text == old(out.text) + ParameterList(Map(Filter(f.parameters, IsShortShown), ShortText), ", ", f.kind)
  {
    ghost var t1 := out.text;
    var first := true;
    var j := 0;
    while j < |f.parameters|
      invariant j <= |f.parameters|
      invariant first <==> Filter(f.parameters[..j], IsShortShown) == []
      invariant out.text == t1 + Opened(Map(Filter(f.parameters[..j], IsShortShown), ShortText), "(", ", ")
    {
      var p := f.parameters[j];
      if !p.skip && p.defaultValue == [] {
        var text := RemoveTemplateParameters(p.fullType);
        var piece := (if first then "(" else ", ") + text;
        ghost var before := out.text;
        out.Write(piece);
        FilteredJoinStep(f.parameters, j, IsShortShown, ShortText, "(", ", ", t1, before, piece, out.text);
        first := false;
      } else {
        FilterSkip(f.parameters, j, IsShortShown);
      }
      j := j + 1;
    }
    assert f.parameters[..j] == f.parameters;
    ghost var t2 := out.text;
    if !first {
      out.Write(")");
    } else if f.kind != Define {
      out.Write("()");
    }
    ParameterListParts(Map(Filter(f.parameters, IsShortShown), ShortText), ", ", f.kind, t1, t2, out.text);
  }

  /**
    The short synopsis drops what the full synopsis drops, and additionally
    every parameter with a default.
  */
  lemma {:induction false} ShortDropsDefaults(parameters: seq<Parameter>)
    ensures Filter(parameters, IsShortShown) == Filter(ShownParameters(parameters), HasNoDefault)
    decreases |parameters|
  {
    if parameters != [] {
      var init := parameters[..|parameters| - 1];
      var last := parameters[|parameters| - 1];
      ShortDropsDefaults(init);
      var shown := ShownParameters(init);
      if !last.skip {
        var g := shown + [last];
        assert ShownParameters(parameters) == g;
        assert g[..|g| - 1] == shown && g[|g| - 1] == last;
      } else {
        assert ShownParameters(parameters) == shown;
      }
    }
  }

  /** A type without angle brackets is printed as it is. */
  lemma ShortTextPlain(p: Parameter)
    requires AngleFree(p.fullType)
    ensures ShortText(p) == p.fullType
  {
    NoTemplateParameters(p.fullType);
  }
}
