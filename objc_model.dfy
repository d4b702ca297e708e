/** The records of `src/objc.py` (`Method`, `Property`, `ClassInfo`), their
    string renderings, and how one selected line of a class dump becomes one
    record. */
module Objc {
  import opened PyTypes
  import opened PyStr

  /** A method line of the dump: the declaration, sigil included, and the
      implementation address. */
  datatype Method = Method(name: string, ptr: string)

  /** A property line of the dump: the declaration and the optional
      dynamic/synthesize annotation that follows it. */
  datatype Property = Property(name: string, dynamic: Option<string>)

  /** Everything the parser extracts from one class dump, in dump order. */
  datatype ClassInfo = ClassInfo(classMethods: seq<Method>, instanceMethods: seq<Method>, properties: seq<Property>)

  /** The exceptions the modelled code lets escape. Both are Python
      `IndexError`s: indexing the missing second piece of a method line, and
      taking the last element of an empty hierarchy chain. */
  datatype Error = MissingPointer(line: string) | EmptyHierarchy

  /** A computation that returns a value or raises. */
  datatype Outcome<T> = Done(value: T) | Raised(error: Error)

  /** The separator between the fields of a dump line. */
  const FieldSep: string := "; "

  // ---------------------------------------------------------------------------
  // The records and their renderings
  // ---------------------------------------------------------------------------

  /** `Method.isClassMethod`: the declaration starts with the `+` sigil. Python
      indexes the first character, so an empty name raises; hence the
      precondition. */
  function IsClassMethod(m: Method): (r: bool)
    requires |m.name| > 0
    ensures r <==> StartsWith(m.name, "+")
  {
    m.name[0] == '+'
  }

  /** `Method.__str__`: the declaration followed by the address in parentheses. */
  function MethodStr(m: Method): string
  {
    m.name + " (" + m.ptr + ")"
  }

  /** `Property.__str__`. Python tests the annotation for truth, so an empty
      annotation prints like an absent one. */
  function PropertyStr(p: Property): (r: string)
    ensures StartsWith(r, p.name)
    ensures r == p.name <==> p.dynamic == None || p.dynamic == Some("")
  {
    if p.dynamic.Some? && p.dynamic.value != "" then p.name + " (" + p.dynamic.value + ")" else p.name
  }

  /** Each entry of a listing, indented by four spaces. */
  function Indented(items: seq<string>): seq<string>
  {
    seq(|items|, i requires 0 <= i < |items| => "    " + items[i])
  }

  function MethodStrs(ms: seq<Method>): seq<string>
  {
    seq(|ms|, i requires 0 <= i < |ms| => MethodStr(ms[i]))
  }

  function PropertyStrs(ps: seq<Property>): seq<string>
  {
    seq(|ps|, i requires 0 <= i < |ps| => PropertyStr(ps[i]))
  }

  /** A title line followed by the entries, one per line. */
  function Listing(title: string, lines: seq<string>): string
  {
    title + "\n" + Join(lines, "\n")
  }

  /** `ClassInfo.__str__`: three titled listings, the first two each followed by
      a line holding a single space. */
  function Describe(ci: ClassInfo): string
  {
    Listing("Class Methods:", Indented(MethodStrs(ci.classMethods))) + "\n \n"
    + Listing("Instance Methods:", Indented(MethodStrs(ci.instanceMethods))) + "\n \n"
    + Listing("Properties:", Indented(PropertyStrs(ci.properties)))
  }

  /** No field of any record contains a line break. */
  predicate BreakFree(ci: ClassInfo)
  {
    (forall m :: m in ci.classMethods ==> NoBreak(m.name) && NoBreak(m.ptr))
    && (forall m :: m in ci.instanceMethods ==> NoBreak(m.name) && NoBreak(m.ptr))
    && (forall p :: p in ci.properties ==> NoBreak(p.name) && (p.dynamic.Some? ==> NoBreak(p.dynamic.value)))
  }

  lemma IndentedNoBreak(items: seq<string>)
    requires forall i :: 0 <= i < |items| ==> NoBreak(items[i])
    ensures forall i :: 0 <= i < |items| ==> NoBreak(Indented(items)[i]) && Indented(items)[i] != ""
  {
  }

  lemma MethodStrsNoBreak(ms: seq<Method>)
    requires forall m :: m in ms ==> NoBreak(m.name) && NoBreak(m.ptr)
    ensures forall i :: 0 <= i < |ms| ==> NoBreak(Indented(MethodStrs(ms))[i]) && Indented(MethodStrs(ms))[i] != ""
  {
    forall i | 0 <= i < |ms| ensures NoBreak(MethodStrs(ms)[i]) {
      assert ms[i] in ms;
    }
    IndentedNoBreak(MethodStrs(ms));
  }

  /** A listing followed by the single-space separator line. */
  lemma SectionLines(title: string, lines: seq<string>, rest: string)
    requires NoBreak(title) && forall i :: 0 <= i < |lines| ==> NoBreak(lines[i])
    ensures SplitLines(Listing(title, lines) + "\n \n" + rest)
         == [title] + OrBlank(lines) + [" "] + SplitLines(rest)
  {
    var j := Join(lines, "\n");
    assert Listing(title, lines) + "\n \n" + rest == title + "\n" + (j + "\n" + (" " + "\n" + rest));
    SplitLinesCons(title, j + "\n" + (" " + "\n" + rest));
    SplitLinesJoin(lines, " " + "\n" + rest);
    SplitLinesCons(" ", rest);
  }

  /** Three listings separated by single-space lines, read back line by line. */
  lemma {:induction false} ThreeListings(t1: string, l1: seq<string>, t2: string, l2: seq<string>, t3: string, l3: seq<string>)
    requires NoBreak(t1) && NoBreak(t2) && NoBreak(t3)
    requires forall i :: 0 <= i < |l1| ==> NoBreak(l1[i])
    requires forall i :: 0 <= i < |l2| ==> NoBreak(l2[i])
    requires forall i :: 0 <= i < |l3| ==> NoBreak(l3[i]) && l3[i] != ""
    ensures SplitLines(Listing(t1, l1) + "\n \n" + Listing(t2, l2) + "\n \n" + Listing(t3, l3))
         == [t1] + OrBlank(l1) + [" "] + [t2] + OrBlank(l2) + [" "] + [t3] + l3
  {
    var last := Listing(t3, l3);
    var tail := Listing(t2, l2) + "\n \n" + last;
    assert Listing(t1, l1) + "\n \n" + Listing(t2, l2) + "\n \n" + last
        == Listing(t1, l1) + "\n \n" + tail;
    LastListing(t3, l3);
    SectionLines(t2, l2, last);
    SectionLines(t1, l1, tail);
    Regroup([t1], OrBlank(l1), [" "], [t2], OrBlank(l2), [" "], [t3], l3);
  }

  lemma Regroup<T>(a: seq<T>, b: seq<T>, c: seq<T>, d: seq<T>, e: seq<T>, f: seq<T>, g: seq<T>, h: seq<T>)
    ensures a + b + c + (d + e + f + (g + h)) == a + b + c + d + e + f + g + h
  {
  }

  /** The last listing, with no separator after it, read back line by line. */
  lemma LastListing(title: string, lines: seq<string>)
    requires NoBreak(title)
    requires forall i :: 0 <= i < |lines| ==> NoBreak(lines[i]) && lines[i] != ""
    ensures SplitLines(Listing(title, lines)) == [title] + lines
  {
    SplitLinesCons(title, Join(lines, "\n"));
    SplitLinesJoinLast(lines);
  }

  /** Read back line by line, the description of break-free records has one line
      per record, an empty line for an empty method listing, and the titles and
      single-space separators around them. */
  lemma DescribeLines(ci: ClassInfo)
    requires BreakFree(ci)
    ensures SplitLines(Describe(ci))
         == ["Class Methods:"] + OrBlank(Indented(MethodStrs(ci.classMethods))) + [" "]
          + ["Instance Methods:"] + OrBlank(Indented(MethodStrs(ci.instanceMethods))) + [" "]
          + ["Properties:"] + Indented(PropertyStrs(ci.properties))
  {
    MethodStrsNoBreak(ci.classMethods);
    MethodStrsNoBreak(ci.instanceMethods);
    forall i | 0 <= i < |ci.properties| ensures NoBreak(PropertyStrs(ci.properties)[i]) {
      assert ci.properties[i] in ci.properties;
    }
    IndentedNoBreak(PropertyStrs(ci.properties));
    DescribeTitlesNoBreak();
    ThreeListings("Class Methods:", Indented(MethodStrs(ci.classMethods)),
                  "Instance Methods:", Indented(MethodStrs(ci.instanceMethods)),
                  "Properties:", Indented(PropertyStrs(ci.properties)));
  }

  /** The titles of the description are single lines. */
  lemma DescribeTitlesNoBreak()
    ensures NoBreak("Class Methods:") && NoBreak("Instance Methods:") && NoBreak("Properties:")
  {
  }

  function OrBlank(lines: seq<string>): seq<string>
  {
    if lines == [] then [""] else lines
  }

  // ---------------------------------------------------------------------------
  // One selected line, its first two characters dropped, becomes one record
  // ---------------------------------------------------------------------------

  /** `name` is the text of `body` before its first `"; "`, with `;` put back. */
  predicate DeclaredBy(body: string, name: string)
  {
    |name| > 0 && name[|name| - 1] == ';'
    && StartsWith(body, name[..|name| - 1] + FieldSep)
    && !Contains(name[..|name| - 1], FieldSep)
  }

  /** The body of one iteration of the `parse_methods` loop: split on `"; "`,
      the declaration is the first piece with `;` put back, the address is the
      second piece with every parenthesis removed. Tabs are kept: the loop
      computes a tab-free copy of the line but never uses it. A body with no
      second piece raises. */
  function MethodOf(body: string): (r: Outcome<Method>)
    ensures r.Raised? <==> !Contains(body, FieldSep)
    ensures r.Raised? ==> r.error == MissingPointer(body)
    ensures r.Done? ==> DeclaredBy(body, r.value.name)
    ensures r.Done? ==> '(' !in r.value.ptr && ')' !in r.value.ptr
  {
    var components := Split(body, FieldSep);
    SplitMoreThanOne(body, FieldSep);
    if |components| < 2 then Raised(MissingPointer(body))
    else
      var name := components[0] + ";";
      var ptr := Replace(Replace(components[1], "(", ""), ")", "");
      FirstPieceDeclares(body);
      ReplaceCharRemoves(components[1], '(', ')');
      ReplaceCharRemoves(Replace(components[1], "(", ""), ')', '(');
      Done(Method(name, ptr))
  }

  /** The first piece of a split on `"; "` is the text before the first `"; "`. */
  lemma FirstPieceDeclares(body: string)
    requires Contains(body, FieldSep)
    ensures DeclaredBy(body, Split(body, FieldSep)[0] + ";")
  {
    var c := Split(body, FieldSep);
    SplitMoreThanOne(body, FieldSep);
    JoinSplit(body, FieldSep);
    SplitPieceFree(body, FieldSep, 0);
    var name := c[0] + ";";
    assert name[..|name| - 1] == c[0];
    if |c| > 2 {
      assert Join(c, FieldSep) == c[0] + FieldSep + Join(c[1..], FieldSep);
    }
    assert body == c[0] + FieldSep + Join(c[1..], FieldSep);
  }

  /** The body of one iteration of the `parse_properties` loop: the declaration is
      the first piece with `;` put back and every `";;"` collapsed to `";"`; the
      annotation, present exactly when there is a second piece, is that piece
      with every `"( "` and then every `" )"` removed. */
  function PropertyOf(body: string): (r: Property)
    ensures r.dynamic.Some? <==> Contains(body, FieldSep)
  {
    var components := Split(body, FieldSep);
    SplitMoreThanOne(body, FieldSep);
    var name := Replace(components[0] + ";", ";;", ";");
    Property(name, if |components| > 1 then Some(Replace(Replace(components[1], "( ", ""), " )", "")) else None)
  }

  // ---------------------------------------------------------------------------
  // Round trips
  // ---------------------------------------------------------------------------

  /** A method whose declaration ends in its only `;` followed by nothing that
      looks like a field separator, and whose address has no parentheses. */
  predicate Canonical(m: Method)
  {
    |m.name| > 0 && m.name[|m.name| - 1] == ';' && !Contains(m.name, FieldSep)
    && !Contains(m.ptr, FieldSep) && '(' !in m.ptr && ')' !in m.ptr
  }

  /** The rendering of a canonical method splits into the declaration without
      its `;` and the parenthesised address. */
  lemma {:induction false} CanonicalSplit(m: Method)
    requires Canonical(m)
    ensures Split(MethodStr(m), FieldSep) == [m.name[..|m.name| - 1], "(" + m.ptr + ")"]
  {
    var p := m.name[..|m.name| - 1];
    var q := "(" + m.ptr + ")";
    var s := MethodStr(m);
    assert s == p + FieldSep + q by {
      assert m.name == p + ";";
    }
    ContainsIff(m.name, FieldSep);
    forall k: nat | k < |p| ensures !OccursAt(s, FieldSep, k) {
      SeparatorAt(s, k);
      SeparatorAt(m.name, k);
      assert s[k] == m.name[k] && s[k + 1] == m.name[k + 1];
    }
    SeparatorAt(s, |p|);
    SplitAt(s, FieldSep, |p|);
    assert s[..|p|] == p && s[|p| + 2..] == q;
    ParenthesisedFree(m.ptr);
    SplitAbsent(q, FieldSep);
  }

  /** Parentheses around a string free of `"; "` add no `"; "`. */
  lemma ParenthesisedFree(ptr: string)
    requires !Contains(ptr, FieldSep)
    ensures !Contains("(" + ptr + ")", FieldSep)
  {
    var q := "(" + ptr + ")";
    ContainsIff(ptr, FieldSep);
    forall k: nat ensures !OccursAt(q, FieldSep, k) {
      SeparatorAt(q, k);
      if 0 < k < |ptr| {
        SeparatorAt(ptr, k - 1);
        assert q[k] == ptr[k - 1] && q[k + 1] == ptr[k];
      }
    }
    ContainsIff(q, FieldSep);
  }

  /** The field separator at `k`, character by character. */
  lemma SeparatorAt(s: string, k: nat)
    ensures OccursAt(s, FieldSep, k) <==> k + 2 <= |s| && s[k] == ';' && s[k + 1] == ' '
  {
    if k + 2 <= |s| {
      assert s[k..k + 2] == [s[k], s[k + 1]];
    }
  }

  /** A string without the character `c` is left alone when `c` is removed. */
  lemma RemoveAbsentChar(s: string, c: char)
    requires c !in s
    ensures Replace(s, [c], "") == s
  {
    ContainsIff(s, [c]);
    forall k: nat ensures !OccursAt(s, [c], k) {
      if k < |s| {
        assert s[k..k + 1] == [s[k]];
      }
    }
    ReplaceAbsent(s, [c], "");
  }

  /** Removing a character from a one-character string. */
  lemma RemoveFromChar(d: char, c: char)
    ensures Replace([d], [c], "") == if d == c then "" else [d]
  {
    assert [d][1..] == [];
    assert [d][..1] == [d];
  }

  lemma StripOpen(ptr: string)
    requires '(' !in ptr
    ensures Replace(['('] + (ptr + [')']), ['('], "") == ptr + [')']
  {
    ReplaceCharConcat(['('], ptr + [')'], '(', "");
    RemoveFromChar('(', '(');
    ReplaceCharConcat(ptr, [')'], '(', "");
    RemoveAbsentChar(ptr, '(');
    RemoveFromChar(')', '(');
  }

  lemma StripClose(ptr: string)
    requires ')' !in ptr
    ensures Replace(ptr + [')'], [')'], "") == ptr
  {
    ReplaceCharConcat(ptr, [')'], ')', "");
    RemoveAbsentChar(ptr, ')');
    RemoveFromChar(')', ')');
  }

  /** Removing every parenthesis from a parenthesised parenthesis-free string
      gives the string. */
  lemma StripParentheses(ptr: string)
    requires '(' !in ptr && ')' !in ptr
    ensures Replace(Replace("(" + ptr + ")", "(", ""), ")", "") == ptr
  {
    assert "(" + ptr + ")" == ['('] + (ptr + [')']);
    StripOpen(ptr);
    StripClose(ptr);
  }

  /** Rendering a canonical method and reading the rendering back as a line body
      gives the method again. */
  lemma MethodRoundTrip(m: Method)
    requires Canonical(m)
    ensures MethodOf(MethodStr(m)) == Done(m)
  {
    CanonicalSplit(m);
    StripParentheses(m.ptr);
    assert m.name[..|m.name| - 1] + ";" == m.name;
  }

  /** A property line body without an annotation: the declaration keeps a single
      trailing `;`, whether or not the body already ended in one. */
  lemma PropertyWithoutAnnotation(body: string)
    requires !Contains(body, FieldSep) && !Contains(body, ";;")
    ensures PropertyOf(body) == Property(if EndsWith(body, ";") then body else body + ";", None)
  {
    SplitAbsent(body, FieldSep);
    if EndsWith(body, ";") {
      CollapseTrailing(body);
    } else {
      CollapseNothing(body);
    }
  }

  /** A method body read field by field: the declaration before the first
      `"; "` gets its `;` back, the second field loses its parentheses, and
      any further `"; "` fields are ignored. */
  lemma MethodOfPieces(decl: string, ptr: string, more: string)
    requires !Contains(decl, FieldSep) && !Contains(ptr, FieldSep) && '(' !in ptr && ')' !in ptr
    requires more == "" || StartsWith(more, FieldSep)
    ensures MethodOf(decl + "; (" + ptr + ")" + more) == Done(Method(decl + ";", ptr))
  {
    var x := "(" + ptr + ")";
    assert decl + "; (" + ptr + ")" + more == decl + FieldSep + (x + more);
    SplitFirstField(decl, x + more);
    ParenthesisedFree(ptr);
    FieldThenMore(x, more);
    StripParentheses(ptr);
  }

  /** An annotated property body read field by field: the declaration keeps a
      single trailing `;`, the annotation `( … )` loses its spaced parentheses,
      and any further `"; "` fields are ignored. */
  lemma PropertyOfPieces(decl: string, dynamic: string, more: string)
    requires !Contains(decl, FieldSep) && !Contains(decl, ";;")
    requires !Contains(dynamic, FieldSep) && !EndsWith(dynamic, ";") && '(' !in dynamic && ')' !in dynamic
    requires more == "" || StartsWith(more, FieldSep)
    ensures PropertyOf(decl + "; ( " + dynamic + " )" + more)
            == Property(if EndsWith(decl, ";") then decl else decl + ";", Some(dynamic))
  {
    var x := "( " + dynamic + " )";
    var body := decl + "; ( " + dynamic + " )" + more;
    AnnotatedBody(decl, dynamic, more);
    SplitFirstField(decl, x + more);
    SpacedParenthesesFree(dynamic);
    FieldThenMore(x, more);
    PropertyFromFields(body, decl, x);
    StripSpacedParentheses(dynamic);
    if EndsWith(decl, ";") {
      CollapseTrailing(decl);
    } else {
      CollapseNothing(decl);
    }
  }

  /** Any method body with a separator, read field by field: the declaration
      is the text before the first `"; "` with its `;` put back, and the address
      is the next field, up to the following `"; "` if any, with every
      parenthesis removed. */
  lemma MethodOfFields(decl: string, rest: string)
    requires !Contains(decl, FieldSep)
    ensures MethodOf(decl + FieldSep + rest)
            == Done(Method(decl + ";", Replace(Replace(Split(rest, FieldSep)[0], "(", ""), ")", "")))
  {
    SplitFirstField(decl, rest);
    SplitMoreThanOne(decl + FieldSep + rest, FieldSep);
  }

  /** Any property body with a separator, read field by field: the declaration
      is the text before the first `"; "` with `;` put back and `";;"`
      collapsed, and the annotation is the next field, up to the following
      `"; "` if any, without its spaced parentheses. */
  lemma PropertyOfFields(decl: string, rest: string)
    requires !Contains(decl, FieldSep)
    ensures PropertyOf(decl + FieldSep + rest)
            == Property(Replace(decl + ";", ";;", ";"), Some(Replace(Replace(Split(rest, FieldSep)[0], "( ", ""), " )", "")))
  {
    SplitFirstField(decl, rest);
    PropertyFromFields(decl + FieldSep + rest, decl, Split(rest, FieldSep)[0]);
  }

  /** Any property body without a separator: the whole body with `;` put back
      and `";;"` collapsed, and no annotation. */
  lemma PropertyOfPlain(body: string)
    requires !Contains(body, FieldSep)
    ensures PropertyOf(body) == Property(Replace(body + ";", ";;", ";"), None)
  {
    SplitAbsent(body, FieldSep);
  }

  /** Every body with a separator has the shape the two lemmas above read: a
      declaration free of `"; "`, the separator, and the rest. */
  lemma FieldsShape(body: string)
    requires Contains(body, FieldSep)
    ensures exists decl, rest :: !Contains(decl, FieldSep) && body == decl + FieldSep + rest
  {
    var name := Split(body, FieldSep)[0] + ";";
    FirstPieceDeclares(body);
    var decl := name[..|name| - 1];
    var rest := body[|decl| + 2..];
    assert body == decl + FieldSep + rest;
  }

  lemma AnnotatedBody(decl: string, dynamic: string, more: string)
    ensures decl + "; ( " + dynamic + " )" + more == decl + FieldSep + (("( " + dynamic + " )") + more)
  {
  }

  /** `PropertyOf` reads the first two pieces of the split. */
  lemma PropertyFromFields(body: string, first: string, second: string)
    requires |Split(body, FieldSep)| >= 2 && Split(body, FieldSep)[0] == first && Split(body, FieldSep)[1] == second
    ensures PropertyOf(body) == Property(Replace(first + ";", ";;", ";"), Some(Replace(Replace(second, "( ", ""), " )", "")))
  {
  }

  /** A field free of `"; "`, followed by the separator, is the first piece. */
  lemma SplitFirstField(p: string, rest: string)
    requires !Contains(p, FieldSep)
    ensures Split(p + FieldSep + rest, FieldSep) == [p] + Split(rest, FieldSep)
  {
    var s := p + FieldSep + rest;
    ContainsIff(p, FieldSep);
    forall k: nat | k < |p| ensures !OccursAt(s, FieldSep, k) {
      SeparatorAt(s, k);
      if k + 1 < |p| {
        SeparatorAt(p, k);
        assert s[k] == p[k] && s[k + 1] == p[k + 1];
      } else {
        assert s[k + 1] == ';';
      }
    }
    SeparatorAt(s, |p|);
    SplitAt(s, FieldSep, |p|);
    assert s[..|p|] == p && s[|p| + 2..] == rest;
  }

  /** A field free of `"; "` followed by nothing or by further fields is the
      first piece. */
  lemma FieldThenMore(x: string, more: string)
    requires !Contains(x, FieldSep) && (more == "" || StartsWith(more, FieldSep))
    ensures Split(x + more, FieldSep)[0] == x
  {
    if more == "" {
      assert x + more == x;
      SplitAbsent(x, FieldSep);
    } else {
      assert more == FieldSep + more[2..];
      assert x + more == x + FieldSep + more[2..];
      SplitFirstField(x, more[2..]);
    }
  }

  /** Spaced parentheses around a field free of `"; "` that does not end in
      `;` add no `"; "`. */
  lemma SpacedParenthesesFree(a: string)
    requires !Contains(a, FieldSep) && !EndsWith(a, ";")
    ensures !Contains("( " + a + " )", FieldSep)
  {
    var q := "( " + a + " )";
    ContainsIff(a, FieldSep);
    forall k: nat ensures !OccursAt(q, FieldSep, k) {
      SeparatorAt(q, k);
      if 2 <= k && k + 1 < 2 + |a| {
        SeparatorAt(a, k - 2);
        assert q[k] == a[k - 2] && q[k + 1] == a[k - 1];
      } else if k == 1 + |a| && |a| > 0 {
        assert a[|a| - 1..] == [a[|a| - 1]];
        assert q[k] == a[|a| - 1];
      }
    }
    ContainsIff(q, FieldSep);
  }

  /** Removing `"( "` and then `" )"` from a spaced annotation gives its text
      back, when the text has no parentheses of its own. */
  lemma StripSpacedParentheses(a: string)
    requires '(' !in a && ')' !in a
    ensures Replace(Replace("( " + a + " )", "( ", ""), " )", "") == a
  {
    var q := "( " + a + " )";
    var t := a + " )";
    assert StartsWith(q, "( ") && q[2..] == t;
    assert Replace(q, "( ", "") == "" + Replace(t, "( ", "");
    assert '(' !in t;
    FirstCharAbsent(t, "( ");
    ReplaceAbsent(t, "( ", "");
    assert "" + t == t;
    RemoveSpacedClose(a);
  }

  lemma {:induction false} RemoveSpacedClose(a: string)
    requires ')' !in a
    ensures Replace(a + " )", " )", "") == a
    decreases |a|
  {
    var s := a + " )";
    if a == [] {
      assert s == " )" && StartsWith(s, " )") && s[2..] == "";
    } else {
      assert |a| > 1 ==> s[1] == a[1];
      assert !StartsWith(s, " )");
      assert s[1..] == a[1..] + " )";
      RemoveSpacedClose(a[1..]);
      assert [a[0]] + a[1..] == a;
    }
  }

  /** Putting `;` back after a declaration that already ends in its only `;`
      makes a `;;` that the collapse removes again. */
  lemma CollapseTrailing(body: string)
    requires EndsWith(body, ";") && !Contains(body, ";;")
    ensures Replace(body + ";", ";;", ";") == body
  {
    var t := body + ";";
    var q := body[..|body| - 1];
    ContainsIff(body, ";;");
    assert t == q + ";;";
    PairAt(t, ';', ';', |q|);
    forall k: nat | k < |q| ensures !OccursAt(t, ";;", k) {
      PairAt(t, ';', ';', k);
      PairAt(body, ';', ';', k);
      assert t[k] == body[k] && t[k + 1] == body[k + 1];
    }
    SplitAt(t, ";;", |q|);
    assert t[..|q|] == q && t[|q| + 2..] == "";
    SplitAbsent("", ";;");
    ReplaceIsJoinSplit(t, ";;", ";");
    assert q + ";" == body;
  }

  /** Putting `;` back after a declaration that does not end in `;` makes no
      `;;`: the collapse leaves it alone. */
  lemma CollapseNothing(body: string)
    requires !EndsWith(body, ";") && !Contains(body, ";;")
    ensures Replace(body + ";", ";;", ";") == body + ";"
  {
    var t := body + ";";
    ContainsIff(body, ";;");
    forall k: nat | k <= |t| ensures !OccursAt(t, ";;", k) {
      PairAt(t, ';', ';', k);
      if k + 2 <= |body| {
        PairAt(body, ';', ';', k);
        assert t[k] == body[k] && t[k + 1] == body[k + 1];
      } else if k + 2 == |t| {
        assert t[k] == body[|body| - 1];
        assert body[|body| - 1..] == [body[|body| - 1]];
      }
    }
    ContainsIff(t, ";;");
    ReplaceAbsent(t, ";;", ";");
  }
}
