/** `ClassInfoParser` of `src/objc.py`: the class dump is split into lines, the
    method lines of each sigil and the property lines are selected, and every
    selected line, its first two characters dropped, becomes one record. */
module ClassInfoParser {
  import opened PyTypes
  import opened PyStr
  import opened Objc

  // ---------------------------------------------------------------------------
  // Selecting lines
  // ---------------------------------------------------------------------------

  /** The five characters `parse_methods` expects at the start of a method line:
      two tabs, the sigil, a space and an opening parenthesis. */
  function MethodMarker(isStatic: bool): string
  {
    if isStatic then "\t\t+ (" else "\t\t- ("
  }

  /** The filter of `parse_methods`, a comparison of the first five characters. */
  predicate IsMethodLine(line: string, isStatic: bool)
  {
    Take(line, 5) == MethodMarker(isStatic)
  }

  /** The filter of `parse_properties`: `@property` anywhere in the line. */
  predicate IsPropertyLine(line: string)
  {
    Contains(line, "@property")
  }

  /** The lines `parse_methods` keeps, in order, with their first two characters
      dropped. */
  function MethodBodies(lines: seq<string>, isStatic: bool): seq<string>
    decreases |lines|
  {
    if lines == [] then []
    else (if IsMethodLine(lines[0], isStatic) then [Drop(lines[0], 2)] else []) + MethodBodies(lines[1..], isStatic)
  }

  /** The lines `parse_properties` keeps, in order, with their first two
      characters dropped whatever they are. */
  function PropertyBodies(lines: seq<string>): seq<string>
    decreases |lines|
  {
    if lines == [] then []
    else (if IsPropertyLine(lines[0]) then [Drop(lines[0], 2)] else []) + PropertyBodies(lines[1..])
  }

  // ---------------------------------------------------------------------------
  // The parse, as functions
  // ---------------------------------------------------------------------------

  /** The methods of the selected bodies, or the error of the first body that
      has no second piece. */
  function MethodsOf(bodies: seq<string>): Outcome<seq<Method>>
    decreases |bodies|
  {
    if bodies == [] then Done([])
    else
      var head := MethodOf(bodies[0]);
      var tail := MethodsOf(bodies[1..]);
      if head.Raised? then Raised(head.error)
      else if tail.Raised? then Raised(tail.error)
      else Done([head.value] + tail.value)
  }

  /** One property per selected body, in order. */
  function PropertiesOf(bodies: seq<string>): (r: seq<Property>)
    ensures |r| == |bodies|
  {
    seq(|bodies|, i requires 0 <= i < |bodies| => PropertyOf(bodies[i]))
  }

  /** `parse` on the lines of the dump: class methods first, then instance
      methods, then properties; the first method line without a second piece
      raises. */
  function ParseLines(lines: seq<string>): Outcome<ClassInfo>
  {
    var classMethods := MethodsOf(MethodBodies(lines, true));
    var instanceMethods := MethodsOf(MethodBodies(lines, false));
    if classMethods.Raised? then Raised(classMethods.error)
    else if instanceMethods.Raised? then Raised(instanceMethods.error)
    else Done(ClassInfo(classMethods.value, instanceMethods.value, PropertiesOf(PropertyBodies(lines))))
  }

  /** `ClassInfoParser.parse` on the whole dump text. */
  function ClassInfoOf(text: string): Outcome<ClassInfo>
  {
    ParseLines(SplitLines(text))
  }

  // ---------------------------------------------------------------------------
  // The parse, as the source runs it: loops that append
  // ---------------------------------------------------------------------------

  /** `parse_methods`: select, drop two characters, then build the list one
      line at a time. */
  method ParseMethods(lines: seq<string>, isStatic: bool) returns (r: Outcome<seq<Method>>)
    ensures r == MethodsOf(MethodBodies(lines, isStatic))
  {
    var bodies := MethodBodies(lines, isStatic);
    var methods: seq<Method> := [];
    for i := 0 to |bodies|
      invariant |methods| == i
      invariant forall j :: 0 <= j < i ==> MethodOf(bodies[j]) == Done(methods[j])
    {
      var components := Split(bodies[i], FieldSep);
      if |components| < 2 {
        SplitMoreThanOne(bodies[i], FieldSep);
        MethodsOfFirstMissing(bodies, i);
        return Raised(MissingPointer(bodies[i]));
      }
      var name := components[0] + ";";
      var ptr := Replace(Replace(components[1], "(", ""), ")", "");
      methods := methods + [Method(name, ptr)];
    }
    MethodsOfEach(bodies, methods);
    r := Done(methods);
  }

  /** `parse_properties`: select, drop two characters, then build the list one
      line at a time. */
  method ParseProperties(lines: seq<string>) returns (r: seq<Property>)
    ensures r == PropertiesOf(PropertyBodies(lines))
  {
    var bodies := PropertyBodies(lines);
    var properties: seq<Property> := [];
    for i := 0 to |bodies|
      invariant |properties| == i
      invariant forall j :: 0 <= j < i ==> properties[j] == PropertyOf(bodies[j])
    {
      var components := Split(bodies[i], FieldSep);
      var name := Replace(components[0] + ";", ";;", ";");
      var dynamic: Option<string> := None;
      if |components| > 1 {
        dynamic := Some(Replace(Replace(components[1], "( ", ""), " )", ""));
      }
      properties := properties + [Property(name, dynamic)];
    }
    r := properties;
  }

  /** `ClassInfoParser.parse`. */
  method Parse(text: string) returns (r: Outcome<ClassInfo>)
    ensures r == ClassInfoOf(text)
  {
    var lines := SplitLines(text);
    var classMethods := ParseMethods(lines, true);
    if classMethods.Raised? {
      return Raised(classMethods.error);
    }
    var instanceMethods := ParseMethods(lines, false);
    if instanceMethods.Raised? {
      return Raised(instanceMethods.error);
    }
    var properties := ParseProperties(lines);
    r := Done(ClassInfo(classMethods.value, instanceMethods.value, properties));
  }

  // ---------------------------------------------------------------------------
  // What the parse promises
  // ---------------------------------------------------------------------------

  /** Index `i` is the first body without a second piece. */
  predicate FirstMissing(bodies: seq<string>, i: int)
  {
    0 <= i < |bodies| && !Contains(bodies[i], FieldSep)
    && forall j :: 0 <= j < i ==> Contains(bodies[j], FieldSep)
  }

  lemma FirstMissingUnique(bodies: seq<string>, i: int)
    requires 0 <= i < |bodies| && !Contains(bodies[i], FieldSep)
    requires forall j :: 0 <= j < i ==> Contains(bodies[j], FieldSep)
    ensures forall k :: FirstMissing(bodies, k) ==> k == i
  {
  }

  /** One method per body, in order, when every body has a second piece;
      otherwise the error names the first body that has none. */
  lemma {:induction false} MethodsOfSpec(bodies: seq<string>)
    ensures MethodsOf(bodies).Done? <==> forall j :: 0 <= j < |bodies| ==> Contains(bodies[j], FieldSep)
    ensures MethodsOf(bodies).Done? ==>
              |MethodsOf(bodies).value| == |bodies|
              && forall j :: 0 <= j < |bodies| ==> MethodOf(bodies[j]) == Done(MethodsOf(bodies).value[j])
    ensures MethodsOf(bodies).Raised? ==>
              exists i :: FirstMissing(bodies, i) && MethodsOf(bodies).error == MissingPointer(bodies[i])
    decreases |bodies|
  {
    if bodies != [] {
      MethodsOfSpec(bodies[1..]);
      var rest := bodies[1..];
      if MethodOf(bodies[0]).Done? && MethodsOf(rest).Raised? {
        var i :| FirstMissing(rest, i) && MethodsOf(rest).error == MissingPointer(rest[i]);
        assert FirstMissing(bodies, i + 1);
      } else if MethodOf(bodies[0]).Raised? {
        assert FirstMissing(bodies, 0);
      }
    }
  }

  /** The methods of bodies that each give a method. */
  lemma MethodsOfEach(bodies: seq<string>, methods: seq<Method>)
    requires |methods| == |bodies|
    requires forall j :: 0 <= j < |bodies| ==> MethodOf(bodies[j]) == Done(methods[j])
    ensures MethodsOf(bodies) == Done(methods)
  {
    MethodsOfSpec(bodies);
    assert MethodsOf(bodies).Done?;
    assert MethodsOf(bodies).value == methods;
  }

  /** The error of bodies whose first body without a second piece is at `i`. */
  lemma MethodsOfFirstMissing(bodies: seq<string>, i: int)
    requires 0 <= i < |bodies| && !Contains(bodies[i], FieldSep)
    requires forall j :: 0 <= j < i ==> Contains(bodies[j], FieldSep)
    ensures MethodsOf(bodies) == Raised(MissingPointer(bodies[i]))
  {
    MethodsOfSpec(bodies);
    FirstMissingUnique(bodies, i);
  }

  /** Selection keeps the order of the lines: the bodies of two texts one after
      the other are the bodies of the first followed by those of the second. */
  lemma {:induction false} MethodBodiesConcat(a: seq<string>, b: seq<string>, isStatic: bool)
    ensures MethodBodies(a + b, isStatic) == MethodBodies(a, isStatic) + MethodBodies(b, isStatic)
    decreases |a|
  {
    if a == [] {
      assert a + b == b;
    } else {
      assert (a + b)[1..] == a[1..] + b;
      MethodBodiesConcat(a[1..], b, isStatic);
    }
  }

  lemma {:induction false} PropertyBodiesConcat(a: seq<string>, b: seq<string>)
    ensures PropertyBodies(a + b) == PropertyBodies(a) + PropertyBodies(b)
    decreases |a|
  {
    if a == [] {
      assert a + b == b;
    } else {
      assert (a + b)[1..] == a[1..] + b;
      PropertyBodiesConcat(a[1..], b);
    }
  }

  /** The only exception `parse` raises is the missing second piece of a
      method line. */
  lemma ParseRaisesMissingPointer(text: string)
    ensures ClassInfoOf(text).Raised? ==> ClassInfoOf(text).error.MissingPointer?
  {
    var lines := SplitLines(text);
    MethodsOfSpec(MethodBodies(lines, true));
    MethodsOfSpec(MethodBodies(lines, false));
  }

  /** Every selected body comes from a selected line, and every selected line
      gives a body. */
  lemma MethodBodiesFrom(lines: seq<string>, isStatic: bool)
    ensures forall b :: b in MethodBodies(lines, isStatic) <==>
              exists i :: 0 <= i < |lines| && IsMethodLine(lines[i], isStatic) && b == Drop(lines[i], 2)
  {
    MethodBodySource(lines, isStatic);
    MethodLineSelected(lines, isStatic);
  }

  lemma {:induction false} MethodBodySource(lines: seq<string>, isStatic: bool)
    ensures forall b :: b in MethodBodies(lines, isStatic) ==>
              exists i :: 0 <= i < |lines| && IsMethodLine(lines[i], isStatic) && b == Drop(lines[i], 2)
    decreases |lines|
  {
    if lines != [] {
      MethodBodySource(lines[1..], isStatic);
      forall b | b in MethodBodies(lines, isStatic)
        ensures exists i :: 0 <= i < |lines| && IsMethodLine(lines[i], isStatic) && b == Drop(lines[i], 2)
      {
        if !(IsMethodLine(lines[0], isStatic) && b == Drop(lines[0], 2)) {
          assert b in MethodBodies(lines[1..], isStatic);
          var i :| 0 <= i < |lines[1..]| && IsMethodLine(lines[1..][i], isStatic) && b == Drop(lines[1..][i], 2);
          assert lines[1..][i] == lines[i + 1];
        }
      }
    }
  }

  lemma {:induction false} MethodLineSelected(lines: seq<string>, isStatic: bool)
    ensures forall i :: 0 <= i < |lines| && IsMethodLine(lines[i], isStatic) ==>
              Drop(lines[i], 2) in MethodBodies(lines, isStatic)
    decreases |lines|
  {
    if lines != [] {
      MethodLineSelected(lines[1..], isStatic);
      forall i | 0 <= i < |lines| && IsMethodLine(lines[i], isStatic)
        ensures Drop(lines[i], 2) in MethodBodies(lines, isStatic)
      {
        if i > 0 {
          assert lines[1..][i - 1] == lines[i];
        }
      }
    }
  }

  /** Every property body comes from a line mentioning `@property`, and every
      such line gives a body, wherever the mention is. */
  lemma PropertyBodiesFrom(lines: seq<string>)
    ensures forall b :: b in PropertyBodies(lines) <==>
              exists i :: 0 <= i < |lines| && IsPropertyLine(lines[i]) && b == Drop(lines[i], 2)
  {
    PropertyBodySource(lines);
    PropertyLineSelected(lines);
  }

  lemma {:induction false} PropertyBodySource(lines: seq<string>)
    ensures forall b :: b in PropertyBodies(lines) ==>
              exists i :: 0 <= i < |lines| && IsPropertyLine(lines[i]) && b == Drop(lines[i], 2)
    decreases |lines|
  {
    if lines != [] {
      PropertyBodySource(lines[1..]);
      forall b | b in PropertyBodies(lines)
        ensures exists i :: 0 <= i < |lines| && IsPropertyLine(lines[i]) && b == Drop(lines[i], 2)
      {
        if !(IsPropertyLine(lines[0]) && b == Drop(lines[0], 2)) {
          assert b in PropertyBodies(lines[1..]);
          var i :| 0 <= i < |lines[1..]| && IsPropertyLine(lines[1..][i]) && b == Drop(lines[1..][i], 2);
          assert lines[1..][i] == lines[i + 1];
        }
      }
    }
  }

  lemma {:induction false} PropertyLineSelected(lines: seq<string>)
    ensures forall i :: 0 <= i < |lines| && IsPropertyLine(lines[i]) ==> Drop(lines[i], 2) in PropertyBodies(lines)
    decreases |lines|
  {
    if lines != [] {
      PropertyLineSelected(lines[1..]);
      forall i | 0 <= i < |lines| && IsPropertyLine(lines[i])
        ensures Drop(lines[i], 2) in PropertyBodies(lines)
      {
        if i > 0 {
          assert lines[1..][i - 1] == lines[i];
        }
      }
    }
  }

  /** Every body of a method line starts with its sigil, a space and `(`. */
  lemma MethodBodyStart(lines: seq<string>, isStatic: bool, b: string)
    requires b in MethodBodies(lines, isStatic)
    ensures StartsWith(b, MethodMarker(isStatic)[2..])
  {
    MethodBodiesFrom(lines, isStatic);
    var i :| 0 <= i < |lines| && IsMethodLine(lines[i], isStatic) && b == Drop(lines[i], 2);
    assert lines[i][..5] == MethodMarker(isStatic);
    assert b[..3] == lines[i][2..5];
  }

  /** A method read from a body that starts with `"+ ("` or `"- ("` keeps that
      start in its name. */
  lemma NameKeepsSigil(b: string, m: Method, sigilStart: string)
    requires |sigilStart| == 3 && ';' !in sigilStart && StartsWith(b, sigilStart)
    requires MethodOf(b) == Done(m)
    ensures StartsWith(m.name, sigilStart)
  {
    var p := m.name[..|m.name| - 1];
    assert b[..|p| + 2] == p + FieldSep;
    assert b[|p|] == ';';
    assert forall k :: 0 <= k < 3 ==> b[k] == sigilStart[k] && b[k] != ';';
    assert |p| >= 3;
    assert m.name[..3] == p[..3] == b[..3];
  }

  /** Every method read from the lines of one sigil keeps the sigil at the
      start of its name. */
  lemma MethodsKeepSigil(lines: seq<string>, isStatic: bool)
    requires MethodsOf(MethodBodies(lines, isStatic)).Done?
    ensures forall m :: m in MethodsOf(MethodBodies(lines, isStatic)).value ==>
              StartsWith(m.name, MethodMarker(isStatic)[2..])
  {
    var bodies := MethodBodies(lines, isStatic);
    var ms := MethodsOf(bodies).value;
    var sigil := MethodMarker(isStatic)[2..];
    assert |sigil| == 3 && ';' !in sigil;
    MethodsOfSpec(bodies);
    forall j | 0 <= j < |ms| ensures StartsWith(ms[j].name, sigil) {
      assert bodies[j] in bodies;
      MethodBodyStart(lines, isStatic, bodies[j]);
      NameKeepsSigil(bodies[j], ms[j], sigil);
    }
  }

  /** Class methods come only from `+` lines and instance methods only from `-`
      lines: every class method is a class method, no instance method is, and
      no method is in both lists. */
  lemma ParseSigils(lines: seq<string>)
    requires ParseLines(lines).Done?
    ensures forall m :: m in ParseLines(lines).value.classMethods ==>
              StartsWith(m.name, "+ (") && IsClassMethod(m)
    ensures forall m :: m in ParseLines(lines).value.instanceMethods ==>
              StartsWith(m.name, "- (") && !IsClassMethod(m)
    ensures forall m :: m in ParseLines(lines).value.classMethods ==> m !in ParseLines(lines).value.instanceMethods
  {
    var cms := MethodsOf(MethodBodies(lines, true)).value;
    var ims := MethodsOf(MethodBodies(lines, false)).value;
    assert ParseLines(lines).value.classMethods == cms;
    assert ParseLines(lines).value.instanceMethods == ims;
    MethodsKeepSigil(lines, true);
    MethodsKeepSigil(lines, false);
    SigilDecides(cms, "+ (");
    SigilDecides(ims, "- (");
  }

  /** Methods whose names all start with one of the two sigil prefixes. */
  lemma SigilDecides(ms: seq<Method>, sigil: string)
    requires sigil == "+ (" || sigil == "- ("
    requires forall m :: m in ms ==> StartsWith(m.name, sigil)
    ensures forall m :: m in ms ==> |m.name| > 0 && (IsClassMethod(m) <==> sigil == "+ (")
  {
    forall m | m in ms ensures |m.name| > 0 && (IsClassMethod(m) <==> sigil == "+ (") {
      assert m.name[0] == m.name[..3][0] == sigil[0];
    }
  }

  /** The parse raises exactly when some method line, its first two characters
      dropped, has no `"; "`. */
  lemma ParseFailsIff(lines: seq<string>)
    ensures ParseLines(lines).Raised? <==>
              exists i, isStatic :: 0 <= i < |lines| && IsMethodLine(lines[i], isStatic)
                                    && !Contains(Drop(lines[i], 2), FieldSep)
  {
    var cb := MethodBodies(lines, true);
    var ib := MethodBodies(lines, false);
    MethodsOfSpec(cb);
    MethodsOfSpec(ib);
    MethodBodiesFrom(lines, true);
    MethodBodiesFrom(lines, false);
    if ParseLines(lines).Raised? {
      var bodies := if MethodsOf(cb).Raised? then cb else ib;
      var isStatic := MethodsOf(cb).Raised?;
      var j :| 0 <= j < |bodies| && !Contains(bodies[j], FieldSep);
      assert bodies[j] in MethodBodies(lines, isStatic);
      var i :| 0 <= i < |lines| && IsMethodLine(lines[i], isStatic) && bodies[j] == Drop(lines[i], 2);
    } else {
      forall i, isStatic | 0 <= i < |lines| && IsMethodLine(lines[i], isStatic)
        ensures Contains(Drop(lines[i], 2), FieldSep)
      {
        var bodies := if isStatic then cb else ib;
        assert Drop(lines[i], 2) in bodies;
      }
    }
  }

  /** The parse keeps the order of the dump: two dumps that parse, one after the
      other, parse to the concatenation of each of the three lists. */
  lemma ParseConcat(a: seq<string>, b: seq<string>)
    requires ParseLines(a).Done? && ParseLines(b).Done?
    ensures ParseLines(a + b) == Done(ClassInfo(
              ParseLines(a).value.classMethods + ParseLines(b).value.classMethods,
              ParseLines(a).value.instanceMethods + ParseLines(b).value.instanceMethods,
              ParseLines(a).value.properties + ParseLines(b).value.properties))
  {
    var ia := ParseLines(a).value;
    var ib := ParseLines(b).value;
    ParseParts(a);
    ParseParts(b);
    MethodBodiesConcat(a, b, true);
    MethodBodiesConcat(a, b, false);
    PropertyBodiesConcat(a, b);
    MethodsOfConcat(MethodBodies(a, true), MethodBodies(b, true));
    MethodsOfConcat(MethodBodies(a, false), MethodBodies(b, false));
    PropertiesOfConcat(PropertyBodies(a), PropertyBodies(b));
    ParseOfParts(a + b, ia.classMethods + ib.classMethods, ia.instanceMethods + ib.instanceMethods,
                 ia.properties + ib.properties);
  }

  /** The three lists of a parse that succeeds, each from its own bodies. */
  lemma ParseParts(lines: seq<string>)
    requires ParseLines(lines).Done?
    ensures MethodsOf(MethodBodies(lines, true)) == Done(ParseLines(lines).value.classMethods)
    ensures MethodsOf(MethodBodies(lines, false)) == Done(ParseLines(lines).value.instanceMethods)
    ensures PropertiesOf(PropertyBodies(lines)) == ParseLines(lines).value.properties
  {
  }

  /** The parse of lines whose three lists are known. */
  lemma ParseOfParts(lines: seq<string>, cms: seq<Method>, ims: seq<Method>, ps: seq<Property>)
    requires MethodsOf(MethodBodies(lines, true)) == Done(cms)
    requires MethodsOf(MethodBodies(lines, false)) == Done(ims)
    requires PropertiesOf(PropertyBodies(lines)) == ps
    ensures ParseLines(lines) == Done(ClassInfo(cms, ims, ps))
  {
  }

  lemma PropertiesOfConcat(a: seq<string>, b: seq<string>)
    ensures PropertiesOf(a + b) == PropertiesOf(a) + PropertiesOf(b)
  {
    var l := PropertiesOf(a + b);
    var r := PropertiesOf(a) + PropertiesOf(b);
    forall i | 0 <= i < |l| ensures l[i] == r[i] {
      if i < |a| {
        assert (a + b)[i] == a[i];
      } else {
        assert (a + b)[i] == b[i - |a|];
      }
    }
  }

  lemma {:induction false} MethodsOfConcat(a: seq<string>, b: seq<string>)
    requires MethodsOf(a).Done? && MethodsOf(b).Done?
    ensures MethodsOf(a + b) == Done(MethodsOf(a).value + MethodsOf(b).value)
    decreases |a|
  {
    if a == [] {
      assert a + b == b;
      assert MethodsOf(a).value + MethodsOf(b).value == MethodsOf(b).value;
    } else {
      MethodsOfConcat(a[1..], b);
      MethodsOfConcatStep(a, b, MethodsOf(a[1..]).value, MethodsOf(b).value);
    }
  }

  /** The inductive step of `MethodsOfConcat`, kept apart so that each piece of
      reasoning about the first body stays small. */
  lemma MethodsOfConcatStep(a: seq<string>, b: seq<string>, x: seq<Method>, y: seq<Method>)
    requires a != [] && MethodsOf(a).Done? && MethodsOf(a[1..]) == Done(x) && MethodsOf(a[1..] + b) == Done(x + y)
    ensures MethodsOf(a + b) == Done(MethodsOf(a).value + y)
  {
    var h := MethodOf(a[0]).value;
    MethodsOfStep(a, x);
    MethodsOfHead(a, b, x + y);
    ConsAssociates(h, x, y);
  }

  /** The methods of `a + b` start with the method of the first body of `a`. */
  lemma MethodsOfHead(a: seq<string>, b: seq<string>, rest: seq<Method>)
    requires a != [] && MethodOf(a[0]).Done? && MethodsOf(a[1..] + b) == Done(rest)
    ensures MethodsOf(a + b) == Done([MethodOf(a[0]).value] + rest)
  {
    var ab := a + b;
    assert ab[0] == a[0];
    assert ab[1..] == a[1..] + b;
    MethodsOfStep(ab, rest);
  }

  lemma ConsAssociates(h: Method, x: seq<Method>, y: seq<Method>)
    ensures [h] + (x + y) == ([h] + x) + y
  {
  }

  /** One step of the induction above: the methods of a non-empty list of
      bodies that parses are the first body's method, then the rest. */
  lemma MethodsOfStep(bodies: seq<string>, rest: seq<Method>)
    requires bodies != [] && MethodOf(bodies[0]).Done? && MethodsOf(bodies[1..]) == Done(rest)
    ensures MethodsOf(bodies) == Done([MethodOf(bodies[0]).value] + rest)
  {
  }

  lemma {:induction false} MethodBodiesNone(lines: seq<string>, isStatic: bool)
    requires forall i :: 0 <= i < |lines| ==> !IsMethodLine(lines[i], isStatic)
    ensures MethodBodies(lines, isStatic) == []
    decreases |lines|
  {
    if lines != [] {
      MethodBodiesNone(lines[1..], isStatic);
    }
  }

  lemma {:induction false} PropertyBodiesNone(lines: seq<string>)
    requires forall i :: 0 <= i < |lines| ==> !IsPropertyLine(lines[i])
    ensures PropertyBodies(lines) == []
    decreases |lines|
  {
    if lines != [] {
      PropertyBodiesNone(lines[1..]);
    }
  }

  /** Without method or property lines, the parse gives three empty lists; in
      particular for the empty dump. */
  lemma ParseNothing(lines: seq<string>)
    requires forall i :: 0 <= i < |lines| ==>
               !IsMethodLine(lines[i], true) && !IsMethodLine(lines[i], false) && !IsPropertyLine(lines[i])
    ensures ParseLines(lines) == Done(ClassInfo([], [], []))
  {
    MethodBodiesNone(lines, true);
    MethodBodiesNone(lines, false);
    PropertyBodiesNone(lines);
  }

  lemma ParseEmptyText()
    ensures ClassInfoOf("") == Done(ClassInfo([], [], []))
  {
    ParseNothing([]);
  }

  /** Dropping characters from a break-free line leaves it break-free. */
  lemma DropNoBreak(l: string, n: nat)
    requires NoBreak(l)
    ensures NoBreak(Drop(l, n))
  {
    if n <= |l| {
      forall i | 0 <= i < |l| - n ensures !IsLineBreak(l[n..][i]) {
        assert l[n..][i] == l[n + i];
      }
    }
  }

  /** A string whose characters all come from break-free strings is break-free. */
  lemma NoBreakFrom(s: string, from: string)
    requires NoBreak(from) && forall c :: c in s ==> c in from
    ensures NoBreak(s)
  {
    forall i | 0 <= i < |s| ensures !IsLineBreak(s[i]) {
      assert s[i] in from;
      var k :| 0 <= k < |from| && from[k] == s[i];
    }
  }

  lemma MethodOfNoBreak(b: string)
    requires NoBreak(b) && MethodOf(b).Done?
    ensures NoBreak(MethodOf(b).value.name) && NoBreak(MethodOf(b).value.ptr)
  {
    var c := Split(b, FieldSep);
    SplitMoreThanOne(b, FieldSep);
    forall ch | ch in c[0] + ";" ensures ch in b + ";" {
      if ch in c[0] {
        SplitPieceChars(b, FieldSep, 0, ch);
      }
    }
    assert NoBreak(b + ";");
    NoBreakFrom(c[0] + ";", b + ";");
    var inner := Replace(c[1], "(", "");
    forall ch | ch in Replace(inner, ")", "") ensures ch in b {
      ReplaceChars(inner, ")", "", ch);
      ReplaceChars(c[1], "(", "", ch);
      SplitPieceChars(b, FieldSep, 1, ch);
    }
    NoBreakFrom(Replace(inner, ")", ""), b);
  }

  lemma PropertyOfNoBreak(b: string)
    requires NoBreak(b)
    ensures NoBreak(PropertyOf(b).name)
    ensures PropertyOf(b).dynamic.Some? ==> NoBreak(PropertyOf(b).dynamic.value)
  {
    var c := Split(b, FieldSep);
    SplitMoreThanOne(b, FieldSep);
    forall ch | ch in Replace(c[0] + ";", ";;", ";") ensures ch in b + ";" {
      ReplaceChars(c[0] + ";", ";;", ";", ch);
      if ch in c[0] {
        SplitPieceChars(b, FieldSep, 0, ch);
      }
    }
    assert NoBreak(b + ";");
    NoBreakFrom(Replace(c[0] + ";", ";;", ";"), b + ";");
    if |c| > 1 {
      var inner := Replace(c[1], "( ", "");
      forall ch | ch in Replace(inner, " )", "") ensures ch in b {
        ReplaceChars(inner, " )", "", ch);
        ReplaceChars(c[1], "( ", "", ch);
        SplitPieceChars(b, FieldSep, 1, ch);
      }
      NoBreakFrom(Replace(inner, " )", ""), b);
    }
  }

  lemma MethodsNoBreak(lines: seq<string>, isStatic: bool)
    requires forall i :: 0 <= i < |lines| ==> NoBreak(lines[i])
    requires MethodsOf(MethodBodies(lines, isStatic)).Done?
    ensures forall m :: m in MethodsOf(MethodBodies(lines, isStatic)).value ==> NoBreak(m.name) && NoBreak(m.ptr)
  {
    var bodies := MethodBodies(lines, isStatic);
    var ms := MethodsOf(bodies).value;
    BodiesNoBreak(lines, isStatic);
    MethodsOfSpec(bodies);
    forall j | 0 <= j < |ms| ensures NoBreak(ms[j].name) && NoBreak(ms[j].ptr) {
      assert bodies[j] in bodies;
      MethodOfNoBreak(bodies[j]);
    }
  }

  lemma PropertiesNoBreak(lines: seq<string>)
    requires forall i :: 0 <= i < |lines| ==> NoBreak(lines[i])
    ensures forall p :: p in PropertiesOf(PropertyBodies(lines)) ==>
              NoBreak(p.name) && (p.dynamic.Some? ==> NoBreak(p.dynamic.value))
  {
    var pb := PropertyBodies(lines);
    var ps := PropertiesOf(pb);
    PropertyBodiesFrom(lines);
    forall j | 0 <= j < |ps| ensures NoBreak(ps[j].name) && (ps[j].dynamic.Some? ==> NoBreak(ps[j].dynamic.value)) {
      assert pb[j] in pb;
      var i :| 0 <= i < |lines| && IsPropertyLine(lines[i]) && pb[j] == Drop(lines[i], 2);
      DropNoBreak(lines[i], 2);
      PropertyOfNoBreak(pb[j]);
    }
  }

  /** Records read from a dump never contain a line break: every field comes
      from a single line of `splitlines`. */
  lemma ParsedBreakFree(text: string)
    requires ClassInfoOf(text).Done?
    ensures BreakFree(ClassInfoOf(text).value)
  {
    var lines := SplitLines(text);
    forall i | 0 <= i < |lines| ensures NoBreak(lines[i]) {
      SplitLinesNoBreak(text, i);
    }
    MethodsNoBreak(lines, true);
    MethodsNoBreak(lines, false);
    PropertiesNoBreak(lines);
  }

  lemma BodiesNoBreak(lines: seq<string>, isStatic: bool)
    requires forall i :: 0 <= i < |lines| ==> NoBreak(lines[i])
    ensures forall b :: b in MethodBodies(lines, isStatic) ==> NoBreak(b)
  {
    MethodBodiesFrom(lines, isStatic);
    forall b | b in MethodBodies(lines, isStatic) ensures NoBreak(b) {
      var i :| 0 <= i < |lines| && IsMethodLine(lines[i], isStatic) && b == Drop(lines[i], 2);
      DropNoBreak(lines[i], 2);
    }
  }
}
