# iLLDB `objc` command and `SBValue` helpers, modelled in Dafny

iLLDB adds an `objc` command to LLDB with three subcommands:
- `inherites` prints the class hierarchy of an Objective-C object, root class first.
- `methods` prints the class and instance methods of a class in that hierarchy.
- `properties` prints its properties.

The debugger answers with two strings:
- a comma-separated hierarchy chain;
- a class dump from the runtime's `__methodDescriptionForClass:`.

`src/objc.py` turns these into text. It parses the dump line by line (`ClassInfoParser`) into `Method`, `Property` and `ClassInfo` records. `src/LLDBHelper/SBValue.py` coerces debugger values to `int`, `bool` and `str`.

The modules:
- `PyTypes`: `Option`.
- `PyStr`: the Python `str` operations the code relies on, namely `split`, `join`, `replace`, `splitlines`, slicing, `in`, `startswith` and `endswith`, each with its laws.
- `Objc`: the records and their `__str__` renderings, and how one selected dump body becomes one record.
- `ClassInfoParser`: `parse`, `parse_methods` and `parse_properties`, as loops proved against specification functions, with the laws of that specification.
- `ClassDumpRoundTrip`: a dump printed from records parses back to them.
- `ClassDumpQuirks`: consequences of how the parser is written.
- `ObjcCommand`: `class_inherites`, `inherites`, `class_info`, `methods` and `properties`, without the debugger.
- `SBValueHelper`: `asInt`, with the subset of Python `int(s, 0)` it needs; `asBool`; `asStr`.

Python exceptions become `Outcome.Raised(Error)`:
- `MissingPointer` is the `IndexError` of `components[1]`.
- `EmptyHierarchy` is the `IndexError` of `inherites[-1]`.

What the debugger evaluates is a parameter of the model:
- the hierarchy string, `None` when the evaluation is falsy;
- `describe`, which maps a class name to its dump.

Where the documented format and the code disagree, the model follows the code:
- A method line is taken only when it starts with two tabs and `+ (` or `- (`. A line indented any other way is ignored (`ClassDumpQuirks.SingleTabIgnored`).
- A property annotation `; ( )` yields the dynamic part `)`, not an empty one. `replace('( ', '')` runs first and leaves no ` )` to remove (`ClassDumpQuirks.EmptyDynamicLeavesParen`).
- An empty dynamic part prints like an absent one, because `__str__` tests it for truth (`Objc.PropertyStr`).
- `lines = line.replace('\t', '')` in both loops is a dead store. The split works on the untouched line, so the model does not remove tabs.
- A method line that mentions `@property` is filed both as a method and as a property (`ClassDumpQuirks.MethodAndPropertyLine`).

## Model

| member | source | states |
|---|---|---|
| PyStr.Take | src/objc.py:293 | a slice `l[0:n]` is a prefix, of length `n` or the whole string |
| PyStr.Drop | src/objc.py:294 | `l[2:]` is what follows the prefix; the two put back together give the line |
| PyStr.Contains | src/objc.py:309 | Python `sub in s`, defined by scanning from the left; its law is `PyStr.ContainsIff` |
| PyStr.ContainsIff | src/objc.py:309 | `sub in s` holds exactly when `sub` occurs at some index; its absence means no occurrence up to the end |
| PyStr.OccursInPrefix | src/objc.py:299 | an occurrence lying inside `a` is an occurrence in `a + b` and conversely |
| PyStr.PairAt | src/objc.py:299 | a two-character separator occurs at `k` exactly when its two characters stand at `k` and `k + 1` |
| PyStr.FirstCharAbsent | src/objc.py:299 | a string lacking the first character of `sub` does not contain `sub` |
| PyStr.OnlyAtEnd | src/objc.py:317 | appending the first character of `sub` to a string without it creates no occurrence of `sub` |
| PyStr.Split | src/objc.py:299 | `str.split(sep)` yields at least one piece |
| PyStr.JoinSplit | src/objc.py:299 | joining the pieces of a split with the separator gives back the string |
| PyStr.SplitMoreThanOne | src/objc.py:299-301 | a split has a second piece exactly when the separator occurs |
| PyStr.SplitAbsent | src/objc.py:315 | a string without the separator splits into itself alone |
| PyStr.SplitAt | src/objc.py:299 | the first piece ends at the first occurrence, and the rest splits on |
| PyStr.OccurrenceShift | src/objc.py:299 | dropping one character before the first occurrence shifts it by one |
| PyStr.SplitPieceChars | src/objc.py:299 | every character of a piece comes from the string |
| PyStr.SplitPieceFree | src/objc.py:299 | no piece contains the separator |
| PyStr.FirstPieceGrows | src/objc.py:299 | extending the first piece by a character that starts no separator keeps it separator-free |
| PyStr.FirstPiecePrefix | src/objc.py:299 | the first piece is a prefix of the string |
| PyStr.ConsFree | src/objc.py:299 | a separator-free piece preceded by a character that starts no separator in the string stays separator-free |
| PyStr.Join | src/objc.py:89 | Python `sep.join(parts)`; `PyStr.JoinSplit` and `PyStr.SplitJoin` make it the inverse of `split` |
| PyStr.Replace | src/objc.py:301 | Python `s.replace(pat, rep)`, non-overlapping from the left; its laws are `PyStr.ReplaceIsJoinSplit`, `PyStr.ReplaceAbsent`, `PyStr.ReplaceCharConcat`, `PyStr.ReplaceCharRemoves` and `PyStr.ReplaceChars` |
| PyStr.SplitJoin | src/objc.py:227 | splitting a join of separator-free parts on a two-character separator gives back the parts |
| PyStr.ReplaceIsJoinSplit | src/objc.py:301 | `replace(pat, rep)` is split on `pat` then join with `rep` |
| PyStr.ReplaceAbsent | src/objc.py:317 | replacing an absent pattern changes nothing |
| PyStr.ReplaceCharConcat | src/objc.py:301 | replacing one character distributes over concatenation |
| PyStr.ReplaceCharRemoves | src/objc.py:301 | removing a character removes every copy of it and keeps every other character |
| PyStr.ReplaceChars | src/objc.py:321 | every character of the result comes from the string or the replacement |
| PyStr.SplitLines | src/objc.py:279 | Python `s.splitlines()` over its full set of line breaks, `\r\n` counting as one; its laws are `PyStr.SplitLinesNoBreak`, `PyStr.SplitLinesCons`, `PyStr.SplitLinesJoin`, `PyStr.SplitLinesSingle` and `PyStr.SplitLinesJoinLast` |
| PyStr.SplitLinesNoBreak | src/objc.py:279 | no line produced by `splitlines` holds a line break |
| PyStr.SplitLinesCons | src/objc.py:279 | a break-free line followed by `\n` is the first line |
| PyStr.SplitLinesJoin | src/objc.py:279 | joining break-free lines with `\n` and a final `\n` gives back those lines, then the rest |
| PyStr.SplitLinesSingle | src/objc.py:279 | a non-empty break-free string is one line |
| PyStr.SplitLinesJoinLast | src/objc.py:279 | break-free lines joined with `\n`, the last one non-empty, are given back |
| Objc.IsClassMethod | src/objc.py:240-241 | a method is a class method exactly when its name starts with `+` |
| Objc.PropertyStr | src/objc.py:252-255 | the rendering starts with the name, and is the bare name exactly when the annotation is absent or empty |
| Objc.MethodStr | src/objc.py:243-244 | `Method.__str__`; `Objc.MethodRoundTrip` makes the parser its inverse |
| Objc.Listing | src/objc.py:269-271 | one titled section of `ClassInfo.__str__`; read back by `Objc.SectionLines` and `Objc.LastListing` |
| Objc.Describe | src/objc.py:264-273 | `ClassInfo.__str__`; `Objc.DescribeLines` gives its lines exactly |
| Objc.IndentedNoBreak | src/objc.py:265-267 | indented break-free items are non-empty and break-free |
| Objc.MethodStrsNoBreak | src/objc.py:243-244 | rendered methods with break-free fields are non-empty, break-free lines |
| Objc.SectionLines | src/objc.py:269-270 | a titled listing followed by `\n \n` reads back as title, entries and a one-space line |
| Objc.ThreeListings | src/objc.py:269-271 | three titled listings read back as their lines in order, the blank separators included |
| Objc.LastListing | src/objc.py:271 | the last listing reads back as its title and entries |
| Objc.DescribeLines | src/objc.py:264-273 | the lines of `ClassInfo.__str__` are `Class Methods:`, the indented methods, ` `, `Instance Methods:`, the indented methods, ` `, `Properties:` and the indented properties |
| Objc.MethodOf | src/objc.py:299-303 | a body raises exactly when it lacks `; `; otherwise the name is the first piece plus `;` and the address holds no parenthesis; for every body `decl; rest` with `decl` free of `; `, `Objc.MethodOfFields` gives the whole result, and `Objc.MethodOfPieces` spells it out for a body `decl; (ptr)` followed by nothing or further fields |
| Objc.FirstPieceDeclares | src/objc.py:299-300 | the name taken from a body is the text before its first `; `, followed by `;` |
| Objc.PropertyOf | src/objc.py:315-323 | a property has a dynamic part exactly when its body contains `; `; `Objc.PropertyOfFields` (a body `decl; rest` with `decl` free of `; `) and `Objc.PropertyOfPlain` (a body without `; `) give the whole result, and `Objc.FieldsShape` shows every body is one of the two; `Objc.PropertyOfPieces` and `Objc.PropertyWithoutAnnotation` spell it out for declarations without `;;` |
| Objc.CanonicalSplit | src/objc.py:299 | a rendered canonical method splits into its name without `;` and the parenthesised address |
| Objc.ParenthesisedFree | src/objc.py:244 | parenthesising an address creates no `; ` |
| Objc.SeparatorAt | src/objc.py:299 | `; ` occurs at `k` exactly when `;` and a space stand there |
| Objc.RemoveAbsentChar | src/objc.py:301 | removing a character the string lacks changes nothing |
| Objc.RemoveFromChar | src/objc.py:301 | removing a character from a one-character string |
| Objc.StripOpen | src/objc.py:301 | `replace('(', '')` removes the opening parenthesis of a rendered address |
| Objc.StripClose | src/objc.py:301 | `replace(')', '')` removes its closing parenthesis |
| Objc.StripParentheses | src/objc.py:301 | the two replacements give back an address without parentheses |
| Objc.MethodRoundTrip | src/objc.py:243-244 | parsing the rendering of a canonical method gives back that method |
| Objc.PropertyWithoutAnnotation | src/objc.py:315-323 | a body without `; ` or `;;` gives the body, ending in exactly one `;`, and no dynamic part |
| Objc.MethodOfPieces | src/objc.py:299-303 | a body `decl; (ptr)` followed by nothing or by further `; ` fields gives the method `decl;` with address `ptr`: later fields are ignored |
| Objc.MethodOfFields | src/objc.py:299-303 | any body `decl; rest` with `decl` free of `; ` gives the method `decl;` whose address is the first field of `rest` with every parenthesis removed |
| Objc.PropertyOfFields | src/objc.py:315-323 | any body `decl; rest` with `decl` free of `; ` gives the name `decl;` with `;;` collapsed and the dynamic part read from the first field of `rest` without its spaced parentheses |
| Objc.PropertyOfPlain | src/objc.py:315-323 | any body without `; ` gives the body plus `;` with `;;` collapsed, and no dynamic part |
| Objc.FieldsShape | src/objc.py:299 | every body containing `; ` is a declaration free of `; `, the separator, and the rest |
| Objc.PropertyOfPieces | src/objc.py:315-323 | a body `decl; ( a )` followed by nothing or by further `; ` fields gives the name `decl` with one trailing `;` and the dynamic part `a`: later fields are ignored |
| Objc.SplitFirstField | src/objc.py:299 | a field free of `; ` followed by `; ` is the first piece, and the rest splits on |
| Objc.FieldThenMore | src/objc.py:299-301 | a field followed by nothing or by further fields is the first piece |
| Objc.SpacedParenthesesFree | src/objc.py:315 | `( a )` contains no `; ` when `a` has none and does not end in `;` |
| Objc.StripSpacedParentheses | src/objc.py:321 | removing `( ` and then ` )` gives back a parenthesis-free annotation |
| Objc.RemoveSpacedClose | src/objc.py:321 | removing ` )` from a parenthesis-free text followed by ` )` gives the text |
| Objc.CollapseTrailing | src/objc.py:317 | a name already ending in `;` loses the doubled `;` |
| Objc.CollapseNothing | src/objc.py:317 | a name not ending in `;` keeps the added `;` |
| ClassInfoParser.PropertiesOf | src/objc.py:313-323 | one property per selected body |
| ClassInfoParser.MethodBodies | src/objc.py:293-294 | the filter and the two-character drop of `parse_methods`; characterised by `ClassInfoParser.MethodBodiesFrom` and `ClassInfoParser.MethodBodiesConcat` |
| ClassInfoParser.PropertyBodies | src/objc.py:309-310 | the filter and the drop of `parse_properties`; characterised by `ClassInfoParser.PropertyBodiesFrom` and `ClassInfoParser.PropertyBodiesConcat` |
| ClassInfoParser.MethodsOf | src/objc.py:297-305 | the `parse_methods` loop as a function; `ClassInfoParser.MethodsOfSpec` gives its result and its exception |
| ClassInfoParser.ParseLines | src/objc.py:280-288 | `parse` after `splitlines`; `ClassInfoParser.ParseFailsIff`, `ClassInfoParser.ParseParts` and `ClassInfoParser.ParseSigils` are its laws |
| ClassInfoParser.ClassInfoOf | src/objc.py:276-288 | `ClassInfoParser.parse`; `ClassDumpRoundTrip.DumpRoundTrip` makes it the inverse of printing a dump |
| ClassInfoParser.ParseMethods | src/objc.py:290-305 | the loop returns the methods of the selected bodies in order, or raises at the first body without `; ` |
| ClassInfoParser.ParseProperties | src/objc.py:307-325 | the loop returns the properties of the selected bodies in order |
| ClassInfoParser.Parse | src/objc.py:276-288 | `parse` splits the text into lines and parses class methods, instance methods and properties |
| ClassInfoParser.FirstMissingUnique | src/objc.py:301 | the first body without `; ` is unique |
| ClassInfoParser.MethodsOfSpec | src/objc.py:297-305 | parsing succeeds exactly when every body has `; `; then it gives one method per body; otherwise it raises on the first body without one |
| ClassInfoParser.MethodsOfEach | src/objc.py:297-305 | bodies that each parse to a method parse to those methods in order |
| ClassInfoParser.MethodsOfFirstMissing | src/objc.py:301 | parsing raises on the first body without `; ` |
| ClassInfoParser.MethodBodiesConcat | src/objc.py:293-294 | selecting method lines distributes over concatenation |
| ClassInfoParser.PropertyBodiesConcat | src/objc.py:309-310 | selecting property lines distributes over concatenation |
| ClassInfoParser.MethodBodiesFrom | src/objc.py:293-294 | a body is selected exactly when it is a line starting with two tabs and the sigil, minus the tabs |
| ClassInfoParser.MethodBodySource | src/objc.py:293-294 | every selected body comes from such a line |
| ClassInfoParser.MethodLineSelected | src/objc.py:293-294 | every such line gives a body |
| ClassInfoParser.PropertyBodiesFrom | src/objc.py:309-310 | a body is selected exactly when it is a line mentioning `@property` anywhere, minus its first two characters |
| ClassInfoParser.PropertyBodySource | src/objc.py:309-310 | every selected property body comes from such a line |
| ClassInfoParser.PropertyLineSelected | src/objc.py:309-310 | every such line gives a body |
| ClassInfoParser.MethodBodyStart | src/objc.py:293-294 | every selected method body starts with its sigil and ` (` |
| ClassInfoParser.NameKeepsSigil | src/objc.py:300 | the parsed name keeps the body's sigil |
| ClassInfoParser.MethodsKeepSigil | src/objc.py:292-303 | every parsed method starts with the sigil it was selected by |
| ClassInfoParser.ParseSigils | src/objc.py:280-281 | class methods start with `+ (`, instance methods with `- (`, and no method is in both lists |
| ClassInfoParser.SigilDecides | src/objc.py:240-241 | `isClassMethod` holds for exactly the methods parsed as class methods |
| ClassInfoParser.ParseFailsIff | src/objc.py:276-305 | `parse` raises exactly when some selected method line has no `; ` |
| ClassInfoParser.ParseRaisesMissingPointer | src/objc.py:299-301 | the only exception `parse` raises is the missing second piece of a method line |
| ClassInfoParser.ParseConcat | src/objc.py:276-325 | parsing two dumps one after the other concatenates their records, list by list |
| ClassInfoParser.PropertiesOfConcat | src/objc.py:313-323 | property parsing distributes over concatenation |
| ClassInfoParser.MethodsOfConcat | src/objc.py:297-303 | method parsing distributes over concatenation when both parts succeed |
| ClassInfoParser.MethodsOfConcatStep | src/objc.py:297-303 | one inductive step of that distribution |
| ClassInfoParser.MethodsOfHead | src/objc.py:297-303 | a parsed first body heads the parsed methods |
| ClassInfoParser.MethodBodiesNone | src/objc.py:293 | lines without the marker select nothing |
| ClassInfoParser.PropertyBodiesNone | src/objc.py:309 | lines without `@property` select nothing |
| ClassInfoParser.ParseNothing | src/objc.py:276-288 | text without method or property lines parses to an empty class |
| ClassInfoParser.ParseEmptyText | src/objc.py:279 | the empty dump parses to an empty class |
| ClassInfoParser.DropNoBreak | src/objc.py:294 | dropping a prefix keeps a line break-free |
| ClassInfoParser.NoBreakFrom | src/objc.py:299-301 | a string made of characters of a break-free string is break-free |
| ClassInfoParser.MethodOfNoBreak | src/objc.py:299-303 | a method parsed from a break-free body has break-free fields |
| ClassInfoParser.PropertyOfNoBreak | src/objc.py:315-321 | a property parsed from a break-free body has break-free fields |
| ClassInfoParser.MethodsNoBreak | src/objc.py:290-305 | methods parsed from `splitlines` output have break-free fields |
| ClassInfoParser.PropertiesNoBreak | src/objc.py:307-325 | properties parsed from `splitlines` output have break-free fields |
| ClassInfoParser.ParsedBreakFree | src/objc.py:276-288 | no field of a parsed class holds a line break |
| ClassInfoParser.BodiesNoBreak | src/objc.py:293-294 | bodies selected from break-free lines are break-free |
| ClassDumpRoundTrip.DumpLineSelected | src/objc.py:293-294 | the dump line of a method is selected by its own sigil only, and its body is the rendering |
| ClassDumpRoundTrip.LineBodies | src/objc.py:293-310 | a dumpable method's line gives one method body and no property body |
| ClassDumpRoundTrip.LineRoundTrip | src/objc.py:290-305 | a canonical method whose declaration starts with its sigil's character parses back from its dump line to exactly that method; the other sigil selects nothing |
| ClassDumpRoundTrip.DumpBodies | src/objc.py:290-310 | the dump lines of methods of one sigil give their renderings as bodies of that sigil and nothing else |
| ClassDumpRoundTrip.DumpMethods | src/objc.py:297-305 | renderings of dumpable methods parse back to those methods |
| ClassDumpRoundTrip.DumpLineNoBreak | src/objc.py:243-244 | a dump line of break-free fields is non-empty and break-free |
| ClassDumpRoundTrip.DumpLinesNoBreak | src/objc.py:243-244 | so is every dump line |
| ClassDumpRoundTrip.DumpRoundTrip | src/objc.py:276-325 | a dump of class then instance methods parses back to exactly those methods, in order, and no property |
| ClassDumpQuirks.SingleTabIgnored | src/objc.py:293 | a line indented by one tab is never a method line |
| ClassDumpQuirks.EmptyDynamicLeavesParen | src/objc.py:319-321 | the annotation `( )` gives the dynamic part `)` |
| ClassDumpQuirks.MethodAndPropertyLine | src/objc.py:293-310 | a method line mentioning `@property` gives the same body to both lists |
| ObjcCommand.ClassHierarchy | src/objc.py:225-229 | a falsy evaluation gives the empty chain; otherwise a non-empty chain that joins back to the string |
| ObjcCommand.HierarchyRoundTrip | src/objc.py:225-227 | the chain of joined class names is those names, in order |
| ObjcCommand.InheritesMessage | src/objc.py:82-89 | `inherites` prints the string with each `, ` replaced by ` -> `, or nothing for a falsy evaluation |
| ObjcCommand.InheritesListsChain | src/objc.py:82-89 | for separator-free names it prints the names joined by ` -> ` |
| ObjcCommand.SelectClass | src/objc.py:155-159 | as written: no class exactly when the filter names a class outside the chain; raises exactly when there is no filter and the chain is empty; otherwise the filter or the last class |
| ObjcCommand.InvalidObjectUnreachable | src/objc.py:155-159 | without a filter the as-written selection never answers "no class", and it raises on an empty chain |
| ObjcCommand.SelectClassFixed | src/objc.py:155-159 | no class exactly when the filter is outside the chain or there is no filter and no chain; otherwise the filter or the last class |
| ObjcCommand.FixedSelectionAgrees | src/objc.py:155-159 | the fixed selection agrees with the as-written one wherever that one answers |
| ObjcCommand.ObjectClassInfo | src/objc.py:149-180 | as written: `None` exactly when a filter names a class outside the chain; raises `IndexError` exactly when there is neither a filter nor a hierarchy; otherwise the parse of the selected class's dump, or the exception that parse raises |
| ObjcCommand.ObjectClassInfoFixed | src/objc.py:149-180 | corrected: `None` exactly when the fixed selection selects no class; otherwise the parse of the selected class's dump, or its exception |
| ObjcCommand.FixedClassInfoAgrees | src/objc.py:155-159 | the corrected `class_info` agrees with the as-written one except where that raises on an empty hierarchy, where it answers `None` |
| ObjcCommand.SectionText | src/objc.py:113-115 | a section's text reads back as its title and its indented names, then whatever follows |
| ObjcCommand.SectionAlone | src/objc.py:143-145 | a section on its own reads back as its title and its indented names |
| ObjcCommand.MethodNamesNoBreak | src/objc.py:114 | names of break-free methods are break-free |
| ObjcCommand.PropertyNamesNoBreak | src/objc.py:144 | names of break-free properties are break-free |
| ObjcCommand.MethodsText | src/objc.py:110-120 | the text is the selected report lines, each ended by a line break, and its lines are the class-method section if asked or if neither flag is given, then the instance-method section likewise |
| ObjcCommand.MethodsCommand | src/objc.py:91-122 | `methods` raises exactly when `class_info` does; with no class it prints "Invalid class name" for a filter and "Invalid object" otherwise; otherwise the method sections |
| ObjcCommand.MethodsMessageLines | src/objc.py:110-120 | the message `methods` prints is the report's lines, each ended by a line break, and splits back into exactly those lines |
| ObjcCommand.PropertiesText | src/objc.py:143-145 | the text is `Properties` and the indented property names, each line ended by a line break, and it splits back into those lines |
| ObjcCommand.PropertiesCommand | src/objc.py:124-147 | `properties` raises exactly when `class_info` does; with no class it prints the two messages; otherwise the property section |
| ObjcCommand.MethodsReport | src/objc.py:110-120 | the lines `methods` prints: the class-method section when asked or when neither flag is given, then the instance-method section likewise; `ObjcCommand.ReportTitles` and the `ReportLists` lemmas are its laws |
| ObjcCommand.SectionMessage | src/objc.py:113-115 | the text of one section, title, indented names and final `\n`; `ObjcCommand.SectionText` reads it back |
| ObjcCommand.SectionListsNames | src/objc.py:113-120 | a section starts with its title, then has each name behind four spaces in order |
| ObjcCommand.SectionHasName | src/objc.py:114 | every name appears, indented, in its section |
| ObjcCommand.ReportListsClassMethods | src/objc.py:110-115 | every class method is listed whenever class methods are shown |
| ObjcCommand.ReportListsInstanceMethods | src/objc.py:117-120 | every instance method is listed whenever instance methods are shown |
| ObjcCommand.ReportTitles | src/objc.py:110-120 | each title appears exactly when its flag is set or neither flag is |
| SBValueHelper.TrimLeft | src/LLDBHelper/SBValue.py:9 | the leading whitespace `int` ignores is removed: a suffix starting with no space, everything removed being whitespace |
| SBValueHelper.TrimRight | src/LLDBHelper/SBValue.py:9 | trailing whitespace removed: a prefix ending with no space, everything removed being whitespace |
| SBValueHelper.Strip | src/LLDBHelper/SBValue.py:9 | the whitespace `int` ignores on both sides; `SBValueHelper.StripClean` and `SBValueHelper.SpacesIgnored` are its laws |
| SBValueHelper.ParseUnsigned | src/LLDBHelper/SBValue.py:9 | an accepted unsigned literal is non-empty and non-negative |
| SBValueHelper.ParseSigned | src/LLDBHelper/SBValue.py:9 | an optional sign, then an unsigned literal; `SBValueHelper.UnsignedRead` and `SBValueHelper.NegativeRead` are its laws |
| SBValueHelper.ParseIntLiteral | src/LLDBHelper/SBValue.py:9 | `int(s, 0)` with no limit on the number of digits, `None` where Python raises `ValueError`; `SBValueHelper.DecimalRoundTrip`, `SBValueHelper.HexRoundTrip`, `SBValueHelper.SpacesIgnored` and `SBValueHelper.LeadingZeroRefused` are its laws |
| SBValueHelper.DigitChar | src/LLDBHelper/SBValue.py:9 | the digit character of `d` has value `d` |
| SBValueHelper.Digits | src/LLDBHelper/SBValue.py:9 | a number's digits are never empty |
| SBValueHelper.DecimalString | src/LLDBHelper/SBValue.py:9 | Python `str(n)` with no limit on the number of digits; `SBValueHelper.DecimalRoundTrip` makes `int(s, 0)` its inverse |
| SBValueHelper.DigitsSpell | src/LLDBHelper/SBValue.py:9 | a number's digits are well grouped, read back as the number, and have no leading zero |
| SBValueHelper.AppendDigit | src/LLDBHelper/SBValue.py:9 | appending a digit multiplies by the base and adds it |
| SBValueHelper.StripClean | src/LLDBHelper/SBValue.py:9 | stripping a string without surrounding whitespace changes nothing |
| SBValueHelper.ParseReadsStrip | src/LLDBHelper/SBValue.py:9 | `int` reads only the stripped text |
| SBValueHelper.DecimalRoundTrip | src/LLDBHelper/SBValue.py:9 | `int(str(n), 0) == n` for every integer, in unlimited arithmetic: Python 3.11 and later refuse more than 4300 decimal digits |
| SBValueHelper.DecimalDigits | src/LLDBHelper/SBValue.py:9 | a number's decimal digits read back as the number |
| SBValueHelper.PlainRead | src/LLDBHelper/SBValue.py:9 | a clean unsigned literal reads as its value |
| SBValueHelper.NegatedRead | src/LLDBHelper/SBValue.py:9 | `-` before a literal reads as its negation |
| SBValueHelper.HexRoundTrip | src/LLDBHelper/SBValue.py:9 | `int('0x' + hex digits of n, 0) == n` |
| SBValueHelper.HexClean | src/LLDBHelper/SBValue.py:9 | a `0x` literal without trailing space needs no stripping |
| SBValueHelper.HexSigned | src/LLDBHelper/SBValue.py:9 | a well-grouped `0x` literal reads as its hexadecimal value |
| SBValueHelper.SpacesIgnored | src/LLDBHelper/SBValue.py:9 | whitespace before or after the literal does not change what is read |
| SBValueHelper.TrimLeftAppend | src/LLDBHelper/SBValue.py:9 | trailing whitespace is trimmed away |
| SBValueHelper.LeadingZeroRefused | src/LLDBHelper/SBValue.py:9-11 | a decimal literal with a leading zero, such as `012`, is refused |
| SBValueHelper.LeadingZeroSigned | src/LLDBHelper/SBValue.py:9 | so is its signed reading |
| SBValueHelper.LeadingZeroUnsigned | src/LLDBHelper/SBValue.py:9 | the unsigned reading refuses a leading zero |
| SBValueHelper.AsInt | src/LLDBHelper/SBValue.py:5-13 | an integer only for a valid value whose string `int` reads, and then exactly that integer; `None` otherwise |
| SBValueHelper.AsBool | src/LLDBHelper/SBValue.py:27-41 | `None` for an invalid value; `true`/`TRUE`/`YES` give true and `false`/`FALSE`/`NO` false; `None` only when no integer is read |
| SBValueHelper.AsBoolOfNumber | src/LLDBHelper/SBValue.py:35-37 | a printed integer reads as true exactly when it is positive, at any number of digits: Python 3.11 and later give `None` beyond 4300 decimal digits |
| SBValueHelper.NumberNoSpelling | src/LLDBHelper/SBValue.py:30-32 | no printed integer is one of the six spellings |
| SBValueHelper.AsBoolSource | src/LLDBHelper/SBValue.py:27-41 | every answer comes from a spelling or from the sign of the integer read |
| SBValueHelper.AsStr | src/LLDBHelper/SBValue.py:44-55 | a string exactly when the value is valid and has a summary, and then a slice of the summary |
| SBValueHelper.QuotedRoundTrip | src/LLDBHelper/SBValue.py:49-50 | a summary in double quotes gives back the quoted text |
| SBValueHelper.AtQuotedRoundTrip | src/LLDBHelper/SBValue.py:51-52 | a summary in `@"…"` gives back the quoted text |
| SBValueHelper.UnquotedUnchanged | src/LLDBHelper/SBValue.py:49-53 | any other summary, a lone `"` or `@"` included, is returned unchanged |

## Left out

- The debugger bridge is not modelled: `util.exp_script`, `util.currentLanguage`, `ret.asStr()` and `GetObjectDescription()`. The hierarchy evaluation is a parameter of type `Option<string>`, and the class dump is the function parameter `describe`. `src/util.py` is not part of this model.
- The Swift and Objective-C expression templates in `class_info` and `class_inherites` are debugger-side code.
- `__call__` and `create_argparser` are not modelled: `shlex` splitting and `argparse` dispatch. `methods` and `properties` take the parsed flags as parameters.
- `result.AppendMessage` is output. The commands return the message instead.
- `asFloat` (Python `float` parsing) is not modelled. Neither is the monkey-patching of `lldb.SBValue`.
- SBValueHelper.ParseIntLiteral: models `int(s, 0)` for ASCII whitespace and ASCII digits only. Other Unicode whitespace and digits, which Python also accepts, are read as refused.
- SBValueHelper.ParseIntLiteral: has no limit on the number of digits. Python 3.11 and later, and the 3.10.7, 3.9.14, 3.8.14 and 3.7.14 releases, refuse more than 4300 digits in a base that is not a power of two. There `asInt` and `asBool` give `None`, while the model reads the number. Hexadecimal, octal and binary literals have no such limit.
- SBValueHelper.DecimalString: has no limit on the number of digits, where `str(n)` in those Python versions raises `ValueError` beyond 4300 decimal digits.
- SBValueHelper.DecimalRoundTrip: holds for every integer in the model. In those Python versions it holds only up to 4300 decimal digits.
- SBValueHelper.AsBoolOfNumber: holds at any number of digits in the model. In those Python versions `asBool` gives `None` beyond 4300 decimal digits.
- Objc.IsClassMethod: requires a non-empty name, where Python raises `IndexError`.
- ObjcCommand.MethodsCommand: built on `ObjectClassInfoFixed`, not on the as-written `ObjectClassInfo`. Where the source raises `IndexError` (no `--class` and a hierarchy that cannot be evaluated), it prints "Invalid object"; see Findings.
- ObjcCommand.PropertiesCommand: likewise built on `ObjectClassInfoFixed`, with the same difference.
- SBValueHelper.AsStr: the contract states only that the result is a slice of the summary. The exact cases are the lemmas `QuotedRoundTrip`, `AtQuotedRoundTrip` and `UnquotedUnchanged`.
- ClassDumpRoundTrip.DumpRoundTrip: covers dumps of methods only. Property bodies are stated one at a time, by `Objc.PropertyOfFields` and `Objc.PropertyOfPlain`.
- Objc.PropertyOf: the name is stated through `Replace(decl + ";", ";;", ";")` in general. It is spelled out without `Replace` only for declarations free of `;;`, in `Objc.PropertyOfPieces` and `Objc.PropertyWithoutAnnotation`. So `a;;b` is covered as `Replace("a;;b;", ";;", ";")`, which is `a;b;`.

## Findings

| source | as written | input that shows it | evidently intended | confidence | as-written member | corrected member |
|---|---|---|---|---|---|---|
| src/objc.py:155-159 | `class_info` returns `None` only when a `--class` filter is outside the chain. Without a filter it takes `inherites[-1]`, which raises `IndexError` when the hierarchy evaluation failed. So the "Invalid object" message is unreachable. | `objc methods x` where the hierarchy of `x` cannot be evaluated, giving the chain `[]` | answer `None`, so that "Invalid object" is printed | not executed | ObjcCommand.SelectClass and ObjcCommand.ObjectClassInfo, shown by ObjcCommand.InvalidObjectUnreachable | ObjcCommand.SelectClassFixed and ObjcCommand.ObjectClassInfoFixed, related by ObjcCommand.FixedClassInfoAgrees |
