/** The bridge-free logic of the `objc` command in `src/objc.py`: the class
    hierarchy read from an evaluated string, the choice of the class to
    describe, and the messages of the `inherites`, `methods` and `properties`
    subcommands. Evaluating expressions in the debuggee is not modelled: its
    results are parameters. */
module ObjcCommand {
  import opened PyTypes
  import opened PyStr
  import opened Objc
  import opened ClassInfoParser

  /** The separator the hierarchy script puts between class names. */
  const ChainSep: string := ", "

  /** The separator `inherites` prints between class names. */
  const Arrow: string := " -> "

  const InvalidClassName: string := "Invalid class name"
  const InvalidObject: string := "Invalid object"

  // ---------------------------------------------------------------------------
  // class_inherites and inherites
  // ---------------------------------------------------------------------------

  /** `class_inherites`: the evaluated hierarchy string (root class first, the
      object's own class last) split on `", "`, or `[]` when evaluation
      failed (`None`). */
  function ClassHierarchy(evaluation: Option<string>): (chain: seq<string>)
    ensures evaluation.Some? ==> |chain| >= 1 && Join(chain, ChainSep) == evaluation.value
    ensures evaluation.None? ==> chain == []
  {
    match evaluation
    case None => []
    case Some(s) => JoinSplit(s, ChainSep); Split(s, ChainSep)
  }

  /** Class names free of `", "`, joined by the hierarchy script, come back as
      the same chain, so the last element is the object's own class. */
  lemma HierarchyRoundTrip(names: seq<string>)
    requires |names| >= 1 && forall i :: 0 <= i < |names| ==> !Contains(names[i], ChainSep)
    ensures ClassHierarchy(Some(Join(names, ChainSep))) == names
  {
    SplitJoin(names, ChainSep);
  }

  /** `inherites`: the chain joined by `" -> "`; the empty message when
      evaluation failed. */
  function InheritesMessage(evaluation: Option<string>): (r: string)
    ensures evaluation.Some? ==> r == Replace(evaluation.value, ChainSep, Arrow)
    ensures evaluation.None? ==> r == ""
  {
    if evaluation.Some? then ReplaceIsJoinSplit(evaluation.value, ChainSep, Arrow); Join(ClassHierarchy(evaluation), Arrow)
    else Join(ClassHierarchy(evaluation), Arrow)
  }

  /** Printing the hierarchy of well-formed class names lists exactly those
      names, separated by arrows. */
  lemma InheritesListsChain(names: seq<string>)
    requires |names| >= 1 && forall i :: 0 <= i < |names| ==> !Contains(names[i], ChainSep)
    ensures InheritesMessage(Some(Join(names, ChainSep))) == Join(names, Arrow)
  {
    HierarchyRoundTrip(names);
  }

  // ---------------------------------------------------------------------------
  // class_info: choosing the class to describe
  // ---------------------------------------------------------------------------

  /** The class `class_info` describes, or `NoClass` where it returns `None`. */
  datatype ClassChoice = Target(name: string) | NoClass

  /** The class selection of `class_info` as written: a filter must be in the
      chain; without one the last element is taken, which raises on an empty
      chain. */
  function SelectClass(chain: seq<string>, filter: Option<string>): (r: Outcome<ClassChoice>)
    ensures r == Done(NoClass) <==> filter.Some? && filter.value !in chain
    ensures r.Raised? <==> filter.None? && chain == []
    ensures r.Raised? ==> r.error == EmptyHierarchy
    ensures r.Done? && r.value.Target? ==>
              r.value.name in chain
              && (filter.Some? ==> r.value.name == filter.value)
              && (filter.None? ==> r.value.name == chain[|chain| - 1])
  {
    if filter.Some? && filter.value !in chain then Done(NoClass)
    else if filter.Some? then Done(Target(filter.value))
    else if chain == [] then Raised(EmptyHierarchy)
    else Done(Target(chain[|chain| - 1]))
  }

  /** As written, the selection never answers `None` without a filter, so the
      callers' "Invalid object" branch cannot be reached; the object whose
      hierarchy cannot be evaluated raises instead. */
  lemma InvalidObjectUnreachable(chain: seq<string>)
    ensures SelectClass(chain, None) != Done(NoClass)
    ensures SelectClass(ClassHierarchy(None), None) == Raised(EmptyHierarchy)
  {
  }

  /** The selection as the callers expect it: an empty chain without a filter
      means the object could not be evaluated, and selects nothing. */
  function SelectClassFixed(chain: seq<string>, filter: Option<string>): (r: ClassChoice)
    ensures r == NoClass <==> (filter.Some? && filter.value !in chain) || (filter.None? && chain == [])
    ensures r.Target? ==>
              r.name in chain
              && (filter.Some? ==> r.name == filter.value)
              && (filter.None? ==> r.name == chain[|chain| - 1])
  {
    if filter.Some? && filter.value !in chain then NoClass
    else if filter.Some? then Target(filter.value)
    else if chain == [] then NoClass
    else Target(chain[|chain| - 1])
  }

  /** The fix only replaces the exception: wherever the selection as written
      answers, the fixed one answers the same. */
  lemma FixedSelectionAgrees(chain: seq<string>, filter: Option<string>)
    requires SelectClass(chain, filter).Done?
    ensures SelectClassFixed(chain, filter) == SelectClass(chain, filter).value
  {
  }

  /** `class_info` as written: the parsed description of the selected class,
      `None` when a filter names a class outside the chain, or an exception:
      `EmptyHierarchy` from `inherites[-1]` when there is neither a filter nor
      a chain, otherwise the one the parse raises. `describe` stands for
      evaluating `__methodDescriptionForClass:` on the selected class. */
  function ObjectClassInfo(evaluation: Option<string>, filter: Option<string>, describe: string -> string)
    : (r: Outcome<Option<ClassInfo>>)
    ensures r == Done(None) <==> filter.Some? && filter.value !in ClassHierarchy(evaluation)
    ensures r == Raised(EmptyHierarchy) <==> filter.None? && evaluation.None?
    ensures r.Done? && r.value.Some? ==>
              var choice := SelectClass(ClassHierarchy(evaluation), filter);
              choice.Done? && choice.value.Target? && ClassInfoOf(describe(choice.value.name)) == Done(r.value.value)
              && BreakFree(r.value.value)
    ensures r.Raised? && r.error != EmptyHierarchy ==>
              var choice := SelectClass(ClassHierarchy(evaluation), filter);
              choice.Done? && choice.value.Target? && ClassInfoOf(describe(choice.value.name)) == Raised(r.error)
  {
    match SelectClass(ClassHierarchy(evaluation), filter)
    case Raised(e) => Raised(e)
    case Done(NoClass) => Done(None)
    case Done(Target(name)) =>
      match ClassInfoOf(describe(name))
      case Raised(e) => ParseRaisesMissingPointer(describe(name)); Raised(e)
      case Done(info) => ParsedBreakFree(describe(name)); Done(Some(info))
  }

  /** `class_info` with the corrected selection, which the subcommands use: an
      object whose hierarchy cannot be evaluated selects no class. */
  function ObjectClassInfoFixed(evaluation: Option<string>, filter: Option<string>, describe: string -> string)
    : (r: Outcome<Option<ClassInfo>>)
    ensures r == Done(None) <==> SelectClassFixed(ClassHierarchy(evaluation), filter) == NoClass
    ensures r.Done? && r.value.Some? ==>
              var choice := SelectClassFixed(ClassHierarchy(evaluation), filter);
              choice.Target? && ClassInfoOf(describe(choice.name)) == Done(r.value.value)
              && BreakFree(r.value.value)
    ensures r.Raised? ==>
              var choice := SelectClassFixed(ClassHierarchy(evaluation), filter);
              choice.Target? && ClassInfoOf(describe(choice.name)) == Raised(r.error)
  {
    match SelectClassFixed(ClassHierarchy(evaluation), filter)
    case NoClass => Done(None)
    case Target(name) =>
      match ClassInfoOf(describe(name))
      case Raised(e) => Raised(e)
      case Done(info) => ParsedBreakFree(describe(name)); Done(Some(info))
  }

  /** The corrected `class_info` answers as written does wherever that one does
      not raise `IndexError` on an empty hierarchy, and answers `None` there. */
  lemma FixedClassInfoAgrees(evaluation: Option<string>, filter: Option<string>, describe: string -> string)
    ensures ObjectClassInfo(evaluation, filter, describe) != Raised(EmptyHierarchy) ==>
              ObjectClassInfoFixed(evaluation, filter, describe) == ObjectClassInfo(evaluation, filter, describe)
    ensures ObjectClassInfo(evaluation, filter, describe) == Raised(EmptyHierarchy) ==>
              ObjectClassInfoFixed(evaluation, filter, describe) == Done(None)
  {
    var chain := ClassHierarchy(evaluation);
    if SelectClass(chain, filter).Done? {
      FixedSelectionAgrees(chain, filter);
    }
  }

  // ---------------------------------------------------------------------------
  // The methods and properties subcommands
  // ---------------------------------------------------------------------------

  function MethodNames(ms: seq<Method>): seq<string>
  {
    seq(|ms|, i requires 0 <= i < |ms| => ms[i].name)
  }

  function PropertyNames(ps: seq<Property>): seq<string>
  {
    seq(|ps|, i requires 0 <= i < |ps| => ps[i].name)
  }

  /** The lines of a section: its title, then one indented name per entry, or
      a single empty line when there is none. */
  function SectionLinesOf(title: string, names: seq<string>): seq<string>
  {
    [title] + OrBlank(Indented(names))
  }

  /** The lines `methods` prints: the class methods section unless only
      instance methods are asked for, the instance methods section unless only
      class methods are, both when neither or both flags are given. */
  function MethodsReport(info: ClassInfo, classOnly: bool, instanceOnly: bool): seq<string>
  {
    var showAll := !classOnly && !instanceOnly;
    (if classOnly || showAll then SectionLinesOf("Class Methods", MethodNames(info.classMethods)) else [])
    + (if instanceOnly || showAll then SectionLinesOf("Instance Methods", MethodNames(info.instanceMethods)) else [])
  }

  /** The text of one section of a message: its title line, the indented
      names joined by line breaks, and a closing line break. */
  function SectionMessage(title: string, names: seq<string>): string
  {
    title + "\n" + Join(Indented(names), "\n") + "\n"
  }

  /** A section of the message, followed by more text, breaks into the
      section's lines and then the lines of that text. */
  lemma SectionText(title: string, names: seq<string>, rest: string)
    requires NoBreak(title) && forall i :: 0 <= i < |names| ==> NoBreak(names[i])
    ensures SplitLines(SectionMessage(title, names) + rest) == SectionLinesOf(title, names) + SplitLines(rest)
  {
    var items := Indented(names);
    IndentedNoBreak(names);
    var j := Join(items, "\n");
    assert SectionMessage(title, names) + rest == title + "\n" + (j + "\n" + rest);
    SplitLinesCons(title, j + "\n" + rest);
    SplitLinesJoin(items, rest);
  }

  /** A single section splits into its lines. */
  lemma SectionAlone(title: string, names: seq<string>)
    requires NoBreak(title) && forall i :: 0 <= i < |names| ==> NoBreak(names[i])
    ensures SplitLines(SectionMessage(title, names)) == SectionLinesOf(title, names)
  {
    SectionText(title, names, "");
    assert SectionMessage(title, names) + "" == SectionMessage(title, names);
    assert SectionLinesOf(title, names) + SplitLines("") == SectionLinesOf(title, names);
  }

  /** A section's message is its lines joined by line breaks, with a closing
      line break. */
  lemma SectionJoined(title: string, names: seq<string>)
    ensures Join(SectionLinesOf(title, names), "\n") + "\n" == SectionMessage(title, names)
  {
    var body := OrBlank(Indented(names));
    assert Join(body, "\n") == Join(Indented(names), "\n");
    JoinAppend([title], body, "\n");
  }

  /** The lines of two sections, joined, are the two section messages one after
      the other. */
  lemma SectionsJoined(title1: string, names1: seq<string>, title2: string, names2: seq<string>)
    ensures Join(SectionLinesOf(title1, names1) + SectionLinesOf(title2, names2), "\n") + "\n"
            == SectionMessage(title1, names1) + SectionMessage(title2, names2)
  {
    JoinAppend(SectionLinesOf(title1, names1), SectionLinesOf(title2, names2), "\n");
    SectionJoined(title1, names1);
    SectionJoined(title2, names2);
  }

  /** The section titles of the messages are single lines. */
  lemma TitlesNoBreak()
    ensures NoBreak("Class Methods") && NoBreak("Instance Methods") && NoBreak("Properties")
  {
  }

  lemma MethodNamesNoBreak(ms: seq<Method>)
    requires forall m :: m in ms ==> NoBreak(m.name) && NoBreak(m.ptr)
    ensures forall i :: 0 <= i < |MethodNames(ms)| ==> NoBreak(MethodNames(ms)[i])
  {
    forall i | 0 <= i < |ms| ensures NoBreak(MethodNames(ms)[i]) {
      assert ms[i] in ms;
    }
  }

  lemma PropertyNamesNoBreak(ps: seq<Property>)
    requires forall p :: p in ps ==> NoBreak(p.name)
    ensures forall i :: 0 <= i < |PropertyNames(ps)| ==> NoBreak(PropertyNames(ps)[i])
  {
    forall i | 0 <= i < |ps| ensures NoBreak(PropertyNames(ps)[i]) {
      assert ps[i] in ps;
    }
  }

  /** The message `methods` prints: the selected sections' messages, class
      methods first. */
  function MethodsMessage(info: ClassInfo, classOnly: bool, instanceOnly: bool): string
  {
    var showAll := !classOnly && !instanceOnly;
    (if classOnly || showAll then SectionMessage("Class Methods", MethodNames(info.classMethods)) else "")
    + (if instanceOnly || showAll then SectionMessage("Instance Methods", MethodNames(info.instanceMethods)) else "")
  }

  /** The message is the report's lines joined and closed by a line break, and
      it breaks back into exactly those lines. */
  lemma MethodsMessageLines(info: ClassInfo, classOnly: bool, instanceOnly: bool)
    requires BreakFree(info)
    ensures MethodsMessage(info, classOnly, instanceOnly) == Join(MethodsReport(info, classOnly, instanceOnly), "\n") + "\n"
    ensures SplitLines(MethodsMessage(info, classOnly, instanceOnly)) == MethodsReport(info, classOnly, instanceOnly)
  {
    MethodNamesNoBreak(info.classMethods);
    MethodNamesNoBreak(info.instanceMethods);
    TitlesNoBreak();
    var showAll := !classOnly && !instanceOnly;
    var classNames := MethodNames(info.classMethods);
    var instanceNames := MethodNames(info.instanceMethods);
    var report := MethodsReport(info, classOnly, instanceOnly);
    var text := MethodsMessage(info, classOnly, instanceOnly);
    if (classOnly || showAll) && (instanceOnly || showAll) {
      assert text == SectionMessage("Class Methods", classNames) + SectionMessage("Instance Methods", instanceNames);
      assert report == SectionLinesOf("Class Methods", classNames) + SectionLinesOf("Instance Methods", instanceNames);
      SectionAlone("Instance Methods", instanceNames);
      SectionText("Class Methods", classNames, SectionMessage("Instance Methods", instanceNames));
      SectionsJoined("Class Methods", classNames, "Instance Methods", instanceNames);
    } else if classOnly || showAll {
      assert text == SectionMessage("Class Methods", classNames) + "";
      assert report == SectionLinesOf("Class Methods", classNames) + [];
      assert text == SectionMessage("Class Methods", classNames);
      assert report == SectionLinesOf("Class Methods", classNames);
      SectionAlone("Class Methods", classNames);
      SectionJoined("Class Methods", classNames);
    } else {
      assert text == "" + SectionMessage("Instance Methods", instanceNames);
      assert report == [] + SectionLinesOf("Instance Methods", instanceNames);
      assert text == SectionMessage("Instance Methods", instanceNames);
      assert report == SectionLinesOf("Instance Methods", instanceNames);
      SectionAlone("Instance Methods", instanceNames);
      SectionJoined("Instance Methods", instanceNames);
    }
  }

  /** The text `methods` builds from a class description, section by
      section; its lines are the report the flags select. */
  method MethodsText(info: ClassInfo, classOnly: bool, instanceOnly: bool) returns (text: string)
    requires BreakFree(info)
    ensures text == Join(MethodsReport(info, classOnly, instanceOnly), "\n") + "\n"
    ensures SplitLines(text) == MethodsReport(info, classOnly, instanceOnly)
  {
    var showAll := !classOnly && !instanceOnly;
    var classNames := MethodNames(info.classMethods);
    var instanceNames := MethodNames(info.instanceMethods);
    text := "";
    if classOnly || showAll {
      text := text + "Class Methods\n";
      text := text + Join(Indented(classNames), "\n");
      text := text + "\n";
    }
    ghost var classText := text;
    assert classText == (if classOnly || showAll then SectionMessage("Class Methods", classNames) else "");
    if instanceOnly || showAll {
      text := text + "Instance Methods\n";
      text := text + Join(Indented(instanceNames), "\n");
      text := text + "\n";
      assert text == classText + SectionMessage("Instance Methods", instanceNames);
    } else {
      assert text == classText + "";
    }
    assert text == MethodsMessage(info, classOnly, instanceOnly);
    MethodsMessageLines(info, classOnly, instanceOnly);
  }

  /** `methods`: the message the subcommand prints, or the exception
      `class_info` raises. */
  method MethodsCommand(evaluation: Option<string>, filter: Option<string>, describe: string -> string,
                        classOnly: bool, instanceOnly: bool)
    returns (r: Outcome<string>)
    ensures r.Raised? <==> ObjectClassInfoFixed(evaluation, filter, describe).Raised?
    ensures ObjectClassInfoFixed(evaluation, filter, describe) == Done(None) ==>
              r == Done(if filter.Some? then InvalidClassName else InvalidObject)
    ensures ObjectClassInfoFixed(evaluation, filter, describe).Done? && ObjectClassInfoFixed(evaluation, filter, describe).value.Some? ==>
              r.Done? && SplitLines(r.value) == MethodsReport(ObjectClassInfoFixed(evaluation, filter, describe).value.value, classOnly, instanceOnly)
  {
    var classInfo := ObjectClassInfoFixed(evaluation, filter, describe);
    if classInfo.Raised? {
      return Raised(classInfo.error);
    }
    if classInfo.value.None? {
      if filter.Some? {
        return Done(InvalidClassName);
      } else {
        return Done(InvalidObject);
      }
    }
    var text := MethodsText(classInfo.value.value, classOnly, instanceOnly);
    r := Done(text);
  }

  /** The text `properties` builds from a class description: one section. */
  method PropertiesText(info: ClassInfo) returns (text: string)
    requires BreakFree(info)
    ensures text == Join(SectionLinesOf("Properties", PropertyNames(info.properties)), "\n") + "\n"
    ensures SplitLines(text) == SectionLinesOf("Properties", PropertyNames(info.properties))
  {
    PropertyNamesNoBreak(info.properties);
    TitlesNoBreak();
    text := "Properties\n";
    text := text + Join(Indented(PropertyNames(info.properties)), "\n");
    text := text + "\n";
    assert text == SectionMessage("Properties", PropertyNames(info.properties));
    SectionAlone("Properties", PropertyNames(info.properties));
    SectionJoined("Properties", PropertyNames(info.properties));
  }

  /** `properties`: the message the subcommand prints, or the exception
      `class_info` raises. */
  method PropertiesCommand(evaluation: Option<string>, filter: Option<string>, describe: string -> string)
    returns (r: Outcome<string>)
    ensures r.Raised? <==> ObjectClassInfoFixed(evaluation, filter, describe).Raised?
    ensures ObjectClassInfoFixed(evaluation, filter, describe) == Done(None) ==>
              r == Done(if filter.Some? then InvalidClassName else InvalidObject)
    ensures ObjectClassInfoFixed(evaluation, filter, describe).Done? && ObjectClassInfoFixed(evaluation, filter, describe).value.Some? ==>
              r.Done? && SplitLines(r.value)
                         == SectionLinesOf("Properties", PropertyNames(ObjectClassInfoFixed(evaluation, filter, describe).value.value.properties))
  {
    var classInfo := ObjectClassInfoFixed(evaluation, filter, describe);
    if classInfo.Raised? {
      return Raised(classInfo.error);
    }
    if classInfo.value.None? {
      if filter.Some? {
        return Done(InvalidClassName);
      } else {
        return Done(InvalidObject);
      }
    }
    var text := PropertiesText(classInfo.value.value);
    r := Done(text);
  }

  /** A section lists each name, indented, right after its title; its other
      lines are blank or indented. */
  lemma SectionListsNames(title: string, names: seq<string>)
    ensures SectionLinesOf(title, names)[0] == title
    ensures forall i :: 0 <= i < |names| ==> SectionLinesOf(title, names)[1 + i] == "    " + names[i]
    ensures forall k :: 1 <= k < |SectionLinesOf(title, names)| ==>
              SectionLinesOf(title, names)[k] == "" || SectionLinesOf(title, names)[k][0] == ' '
  {
  }

  /** A section holds the indented line of each of its names. */
  lemma SectionHasName(title: string, names: seq<string>, i: int)
    requires 0 <= i < |names|
    ensures "    " + names[i] in SectionLinesOf(title, names)
  {
    SectionListsNames(title, names);
    assert SectionLinesOf(title, names)[1 + i] == "    " + names[i];
  }

  /** The class methods section lists every class method, indented, unless
      only instance methods are asked for. */
  lemma ReportListsClassMethods(info: ClassInfo, classOnly: bool, instanceOnly: bool, m: Method)
    requires m in info.classMethods && (classOnly || !instanceOnly)
    ensures "    " + m.name in MethodsReport(info, classOnly, instanceOnly)
  {
    var names := MethodNames(info.classMethods);
    var i :| 0 <= i < |info.classMethods| && info.classMethods[i] == m;
    SectionHasName("Class Methods", names, i);
  }

  /** The instance methods section lists every instance method, indented,
      unless only class methods are asked for. */
  lemma ReportListsInstanceMethods(info: ClassInfo, classOnly: bool, instanceOnly: bool, m: Method)
    requires m in info.instanceMethods && (instanceOnly || !classOnly)
    ensures "    " + m.name in MethodsReport(info, classOnly, instanceOnly)
  {
    var names := MethodNames(info.instanceMethods);
    var i :| 0 <= i < |info.instanceMethods| && info.instanceMethods[i] == m;
    SectionHasName("Instance Methods", names, i);
  }

  /** The report opens with the class methods title exactly when class methods
      are asked for or neither kind is singled out. */
  lemma ReportTitles(info: ClassInfo, classOnly: bool, instanceOnly: bool)
    ensures "Class Methods" in MethodsReport(info, classOnly, instanceOnly) <==> classOnly || !instanceOnly
    ensures "Instance Methods" in MethodsReport(info, classOnly, instanceOnly) <==> instanceOnly || !classOnly
  {
    var cs := SectionLinesOf("Class Methods", MethodNames(info.classMethods));
    var ins := SectionLinesOf("Instance Methods", MethodNames(info.instanceMethods));
    SectionListsNames("Class Methods", MethodNames(info.classMethods));
    SectionListsNames("Instance Methods", MethodNames(info.instanceMethods));
    var report := MethodsReport(info, classOnly, instanceOnly);
    assert "Class Methods" !in ins by {
      forall k | 0 <= k < |ins| ensures ins[k] != "Class Methods" {
        if k == 0 {
          assert ins[0][0] == 'I';
        } else {
          assert ins[k] == "" || ins[k][0] == ' ';
        }
      }
    }
    assert "Instance Methods" !in cs by {
      forall k | 0 <= k < |cs| ensures cs[k] != "Instance Methods" {
        if k == 0 {
          assert cs[0][0] == 'C';
        } else {
          assert cs[k] == "" || cs[k][0] == ' ';
        }
      }
    }
    if classOnly || !instanceOnly {
      assert report[0] == "Class Methods";
    }
    if instanceOnly || !classOnly {
      assert report[|report| - |ins|] == "Instance Methods";
    }
  }
}
