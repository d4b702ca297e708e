/** Round trips through the class-dump parser of `src/objc.py`: a method
    rendered the way the runtime prints it, two tabs first, is read back as
    itself, and so is a whole dump of such methods. */
module ClassDumpRoundTrip {
  import opened PyTypes
  import opened PyStr
  import opened Objc
  import opened ClassInfoParser

  /** The dump line of a method: two tabs, then `Method.__str__`. */
  function DumpLine(m: Method): string
  {
    "\t\t" + MethodStr(m)
  }

  function DumpLines(ms: seq<Method>): seq<string>
  {
    seq(|ms|, i requires 0 <= i < |ms| => DumpLine(ms[i]))
  }

  /** A dump holding the class methods, then the instance methods, one per line. */
  function Dump(classMethods: seq<Method>, instanceMethods: seq<Method>): string
  {
    Join(DumpLines(classMethods) + DumpLines(instanceMethods), "\n")
  }

  /** A method that the parser reads back from its dump line: canonical, named
      with the sigil of its kind, free of line breaks, and not mentioning
      `@property` (which would also make its line a property line). */
  predicate Dumpable(m: Method, isStatic: bool)
  {
    Canonical(m) && StartsWith(m.name, MethodMarker(isStatic)[2..])
    && NoBreak(m.name) && NoBreak(m.ptr) && !Contains(DumpLine(m), "@property")
  }

  /** The dump line of a method is a method line of its own sigil only. */
  lemma DumpLineSelected(m: Method, isStatic: bool)
    requires StartsWith(m.name, MethodMarker(isStatic)[2..])
    ensures IsMethodLine(DumpLine(m), isStatic) && !IsMethodLine(DumpLine(m), !isStatic)
    ensures Drop(DumpLine(m), 2) == MethodStr(m)
  {
    var l := DumpLine(m);
    assert l[..5] == "\t\t" + m.name[..3];
    assert l[2..] == MethodStr(m);
    assert MethodMarker(isStatic)[2] != MethodMarker(!isStatic)[2];
    assert l[..5][2] == m.name[0] == MethodMarker(isStatic)[2];
  }

  /** The bodies the parser selects from the dump line of a dumpable method. */
  lemma LineBodies(m: Method, isStatic: bool)
    requires Dumpable(m, isStatic)
    ensures MethodBodies([DumpLine(m)], isStatic) == [MethodStr(m)]
    ensures MethodBodies([DumpLine(m)], !isStatic) == []
    ensures PropertyBodies([DumpLine(m)]) == []
  {
    DumpLineSelected(m, isStatic);
    assert [DumpLine(m)][1..] == [];
  }

  /** Rendering a canonical method whose declaration starts with its sigil's
      character as a dump line, and parsing that line with its own sigil, gives
      back exactly that method; the other sigil takes nothing. */
  lemma LineRoundTrip(m: Method, isStatic: bool)
    requires Canonical(m) && StartsWith(m.name, MethodMarker(isStatic)[2..])
    ensures MethodsOf(MethodBodies([DumpLine(m)], isStatic)) == Done([m])
    ensures MethodBodies([DumpLine(m)], !isStatic) == []
  {
    DumpLineSelected(m, isStatic);
    assert [DumpLine(m)][1..] == [];
    assert MethodBodies([DumpLine(m)], isStatic) == [MethodStr(m)];
    MethodRoundTrip(m);
    assert [MethodStr(m)][1..] == [];
    assert [m] + [] == [m];
  }

  lemma {:induction false} DumpBodies(ms: seq<Method>, isStatic: bool)
    requires forall m :: m in ms ==> Dumpable(m, isStatic)
    ensures MethodBodies(DumpLines(ms), isStatic) == MethodStrs(ms)
    ensures MethodBodies(DumpLines(ms), !isStatic) == []
    ensures PropertyBodies(DumpLines(ms)) == []
    decreases |ms|
  {
    if ms == [] {
      assert DumpLines(ms) == [];
    } else {
      var head := [DumpLine(ms[0])];
      var rest := DumpLines(ms[1..]);
      assert ms[0] in ms;
      LineBodies(ms[0], isStatic);
      DumpBodies(ms[1..], isStatic);
      DumpLinesCons(ms);
      MethodBodiesConcat(head, rest, isStatic);
      MethodBodiesConcat(head, rest, !isStatic);
      PropertyBodiesConcat(head, rest);
      MethodStrsCons(ms);
    }
  }

  lemma DumpLinesCons(ms: seq<Method>)
    requires ms != []
    ensures DumpLines(ms) == [DumpLine(ms[0])] + DumpLines(ms[1..])
  {
  }

  lemma MethodStrsCons(ms: seq<Method>)
    requires ms != []
    ensures MethodStrs(ms) == [MethodStr(ms[0])] + MethodStrs(ms[1..])
  {
  }

  lemma DumpMethods(ms: seq<Method>, isStatic: bool)
    requires forall m :: m in ms ==> Dumpable(m, isStatic)
    ensures MethodsOf(MethodStrs(ms)) == Done(ms)
  {
    var bodies := MethodStrs(ms);
    forall j | 0 <= j < |ms| ensures MethodOf(bodies[j]) == Done(ms[j]) {
      assert ms[j] in ms;
      MethodRoundTrip(ms[j]);
    }
    MethodsOfSpec(bodies);
    assert MethodsOf(bodies).value == ms;
  }

  /** The dump line of a method without line breaks has none either. */
  lemma DumpLineNoBreak(m: Method)
    requires NoBreak(m.name) && NoBreak(m.ptr)
    ensures NoBreak(DumpLine(m)) && DumpLine(m) != ""
  {
    var l := DumpLine(m);
    var n := |m.name|;
    forall i | 0 <= i < |l| ensures !IsLineBreak(l[i]) {
      if 2 <= i < 2 + n {
        assert l[i] == m.name[i - 2];
      } else if 4 + n <= i < 4 + n + |m.ptr| {
        assert l[i] == m.ptr[i - 4 - n];
      }
    }
  }

  lemma DumpLinesNoBreak(ms: seq<Method>, isStatic: bool)
    requires forall m :: m in ms ==> Dumpable(m, isStatic)
    ensures forall i :: 0 <= i < |ms| ==> NoBreak(DumpLines(ms)[i]) && DumpLines(ms)[i] != ""
  {
    forall i | 0 <= i < |ms| ensures NoBreak(DumpLines(ms)[i]) && DumpLines(ms)[i] != "" {
      assert ms[i] in ms;
      DumpLineNoBreak(ms[i]);
    }
  }

  /** A dump of dumpable class and instance methods parses back to exactly those
      methods, in the same order, and no property. */
  lemma DumpRoundTrip(classMethods: seq<Method>, instanceMethods: seq<Method>)
    requires forall m :: m in classMethods ==> Dumpable(m, true)
    requires forall m :: m in instanceMethods ==> Dumpable(m, false)
    ensures ClassInfoOf(Dump(classMethods, instanceMethods)) == Done(ClassInfo(classMethods, instanceMethods, []))
  {
    var cl := DumpLines(classMethods);
    var il := DumpLines(instanceMethods);
    var lines := cl + il;
    DumpLinesNoBreak(classMethods, true);
    DumpLinesNoBreak(instanceMethods, false);
    SplitLinesJoinLast(lines);
    DumpBodies(classMethods, true);
    DumpBodies(instanceMethods, false);
    MethodBodiesConcat(cl, il, true);
    MethodBodiesConcat(cl, il, false);
    PropertyBodiesConcat(cl, il);
    DumpMethods(classMethods, true);
    DumpMethods(instanceMethods, false);
    assert MethodBodies(lines, true) == MethodStrs(classMethods);
    assert MethodBodies(lines, false) == MethodStrs(instanceMethods);
    assert PropertyBodies(lines) == [];
  }
}

/** Behaviours of the class-dump parser that follow from how `src/objc.py` is
    written: the two-tab indentation it requires, the order of its `replace`
    calls, and lines it files twice. */
module ClassDumpQuirks {
  import opened PyTypes
  import opened PyStr
  import opened Objc
  import opened ClassInfoParser

  /** A line indented by a single tab is never taken for a method, whatever
      follows the tab: only lines starting with two tabs and a sigil are. */
  lemma SingleTabIgnored(line: string)
    requires |line| >= 2 && line[0] == '\t' && line[1] != '\t'
    ensures !IsMethodLine(line, true) && !IsMethodLine(line, false)
    ensures MethodBodies([line], true) == [] && MethodBodies([line], false) == []
  {
    assert Take(line, 5)[1] == line[1];
  }

  /** An empty dynamic part `( )` leaves `)`: `( ` is removed before ` )` is
      looked for, and the lone `)` left over no longer matches ` )`. */
  lemma EmptyDynamicLeavesParen(declaration: string)
    requires ';' !in declaration
    ensures PropertyOf(declaration + "; ( )") == Property(declaration + ";", Some(")"))
  {
    var body := declaration + "; ( )";
    var n := |declaration|;
    assert body[n..n + 2] == FieldSep;
    assert body[..n] == declaration && body[n + 2..] == "( )";
    forall k: nat | k < n ensures !OccursAt(body, FieldSep, k) {
      if k + 2 <= |body| {
        assert body[k..k + 2][0] == body[k] == declaration[k] != ';';
      }
    }
    SplitAt(body, FieldSep, n);
    FirstCharAbsent("( )", FieldSep);
    SplitAbsent("( )", FieldSep);
    OnlyAtEnd(declaration, ";;");
    ReplaceAbsent(declaration + ";", ";;", ";");
    assert Split(body, FieldSep) == [declaration, "( )"];
    assert Replace("( )", "( ", "") == ")";
    assert Replace(")", " )", "") == ")";
  }

  /** A method line that mentions `@property` is filed twice: once as a method
      and once as a property, from the same body. */
  lemma MethodAndPropertyLine(line: string, isStatic: bool)
    requires IsMethodLine(line, isStatic) && Contains(line, "@property")
    ensures MethodBodies([line], isStatic) == [Drop(line, 2)]
    ensures PropertyBodies([line]) == [Drop(line, 2)]
  {
    assert [line][1..] == [];
  }
}
