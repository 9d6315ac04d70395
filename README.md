# IL2026 call-site check, modelled in Dafny

This project models the core of the trimming analyzer's IL2026 rule
("RequiresUnreferencedCode"). The rule inspects every invocation, object
creation and property reference in a compilation. It reports a warning when
the member reached carries the `RequiresUnreferencedCodeAttribute` marker,
unless the enclosing method carries the marker itself. The compiler's symbol
graph is abstracted into plain immutable data (`symbols.dfy`).

- `naming.dfy`, module `Naming`: the qualified-name walk `IsNamedType`. It is
  a `while` loop over the remaining span of the dotted name and the current
  link of the type's containment chain. It is proved against `NameMatches`:
  the name's components, innermost first, are a prefix of the chain. A
  round-trip lemma shows that splitting a joined qualified name gives back
  its components.
- `marker.dfy`, module `Marker`: the first-match scan
  `TryGetRequiresUnreferencedCodeAttribute` over attribute data, proved
  against the recursive `FindMarker`. It also holds the message and `Url`
  extraction.
- `analyzer.dfy`, module `Analyzer`: the shared check
  `CheckMethodOrCtorCall`, the three operation callbacks, the dispatch by
  operation kind, and the `PublishTrimmed` activation gate over a whole
  compilation. These are pure functions that return a sequence of findings.
- `scenarios.dfy`, module `Scenarios`: concrete call sites showing reporting,
  suppression, the virtual-override exclusion, two findings for a read-write
  property use, a malformed marker, and a marker class declared under an extra outer
  namespace.

Three behaviours of the code that a reader might not expect:
- `IsNamedType` returns true for the empty name, because the loop never runs.
- The walk does not require the containment chain to be used up. Only as many
  links as the name has components are compared. A marker class declared
  under an extra outer namespace therefore still matches
  (`Naming.OuterLinksIgnored`, `Scenarios.ShimMarkerReportedWithUrl`).
- A leading dot ends the walk: for ".A" only "A" is compared, because the
  remaining span becomes empty when the dot is at index 0.

Conventions of the model:
- A containment chain is the sequence of link names, innermost first. It runs
  from the type itself through its containing types and namespaces to the
  global namespace, whose name is "". Stepping past its end stands for a null
  symbol.
- `Option.None` stands for null.

## Model

| member | source | states |
|---|---|---|
| `Naming.LastDot` | src/ILLink.RoslynAnalyzer/RequiresUnreferencedCodeAnalyzer.cs:105 | the result is -1 or an index holding '.', and no '.' follows it; so it is the last dot, or there is none |
| `Naming.Components` | src/ILLink.RoslynAnalyzer/RequiresUnreferencedCodeAnalyzer.cs:104-112 | the components the walk compares: none exactly for the empty name, never more than the name's length, none containing a dot |
| `Naming.IsNamedType` | src/ILLink.RoslynAnalyzer/RequiresUnreferencedCodeAnalyzer.cs:100-116 | the loop returns true iff every component of the name, innermost first, equals the corresponding link of the chain; each step strictly shortens the remaining span |
| `Naming.NameMismatch` | src/ILLink.RoslynAnalyzer/RequiresUnreferencedCodeAnalyzer.cs:104-115 | the match fails iff the chain runs out while components remain, or some component differs ordinally from its link; the empty name matches every type |
| `Naming.ComponentsOfJoin` | src/ILLink.RoslynAnalyzer/RequiresUnreferencedCodeAnalyzer.cs:104-112 | splitting a dotted name built from dot-free components (outermost one non-empty) gives back those components, innermost first |
| `Naming.NameMatchesJoin` | src/ILLink.RoslynAnalyzer/RequiresUnreferencedCodeAnalyzer.cs:100-116 | a type matches such a qualified name iff its chain starts with the reversed components |
| `Naming.OuterLinksIgnored` | src/ILLink.RoslynAnalyzer/RequiresUnreferencedCodeAnalyzer.cs:107-113 | extending a matching chain with further outer links keeps it matching: links beyond the components are never inspected |
| `Marker.MarkerClassMatches` | src/ILLink.RoslynAnalyzer/RequiresUnreferencedCodeAnalyzer.cs:126 | the name walk on the marker's qualified name decides exactly the structural marker-class test |
| `Marker.MarkerClassSpelled` | src/ILLink.RoslynAnalyzer/RequiresUnreferencedCodeAnalyzer.cs:126 | the marker-class test holds iff the chain begins RequiresUnreferencedCodeAttribute, CodeAnalysis, Diagnostics, System |
| `Marker.FindMarker` | src/ILLink.RoslynAnalyzer/RequiresUnreferencedCodeAnalyzer.cs:121-134 | None iff no attribute qualifies; otherwise the attribute at an index that qualifies and that no earlier qualifying attribute precedes |
| `Marker.FindMarkerIsFirst` | src/ILLink.RoslynAnalyzer/RequiresUnreferencedCodeAnalyzer.cs:124-131 | whenever an attribute is the first qualifying one, that attribute is what is found |
| `Marker.Qualifies` | src/ILLink.RoslynAnalyzer/RequiresUnreferencedCodeAnalyzer.cs:125-128 | the per-attribute test is true iff the class is bound, has the marker's name, and there is exactly one constructor argument, of type System.String |
| `Marker.TryGetRequiresUnreferencedCodeAttribute` | src/ILLink.RoslynAnalyzer/RequiresUnreferencedCodeAnalyzer.cs:121-134 | returns true iff some attribute qualifies, with the out value set to the first qualifying attribute; otherwise false and null |
| `Marker.LaterAttributesIgnored` | src/ILLink.RoslynAnalyzer/RequiresUnreferencedCodeAnalyzer.cs:124-131 | once a marker is present, appending attributes never changes which one is found |
| `Marker.NonMarkersSkipped` | src/ILLink.RoslynAnalyzer/RequiresUnreferencedCodeAnalyzer.cs:123-133 | attributes that do not qualify (null class, other name, wrong argument count or type) are skipped without effect |
| `Marker.ValueText` | src/ILLink.RoslynAnalyzer/RequiresUnreferencedCodeAnalyzer.cs:91 | a constant's text is null exactly when its value is null |
| `Marker.MessageOf` | src/ILLink.RoslynAnalyzer/RequiresUnreferencedCodeAnalyzer.cs:90 | the message is present iff constructor argument 0 holds a string, and then it is that string |
| `Marker.UrlOf` | src/ILLink.RoslynAnalyzer/RequiresUnreferencedCodeAnalyzer.cs:91 | null when no named argument is keyed "Url"; otherwise the text of the first one keyed "Url" |
| `Analyzer.CheckMethodOrCtorCall` | src/ILLink.RoslynAnalyzer/RequiresUnreferencedCodeAnalyzer.cs:75-93 | at most one finding; none when the enclosing method carries a marker; otherwise one iff the target carries a marker, with the target's name, its first marker's message and URL, at the call site |
| `Analyzer.OnInvocation` | src/ILLink.RoslynAnalyzer/RequiresUnreferencedCodeAnalyzer.cs:44-50 | a finding iff the target is marked, the enclosing method is not, and the call is not a virtual call to an override |
| `Analyzer.OnObjectCreation` | src/ILLink.RoslynAnalyzer/RequiresUnreferencedCodeAnalyzer.cs:52-55 | a constructor call is always checked: a finding iff the constructor is marked and the enclosing method is not |
| `Analyzer.OnPropertyReference` | src/ILLink.RoslynAnalyzer/RequiresUnreferencedCodeAnalyzer.cs:57-73 | one finding for the getter iff the use reads and a marked getter exists, one for the setter iff it writes and a marked setter exists; getter's first, both at the reference's location |
| `Analyzer.AnalyzeOperation` | src/ILLink.RoslynAnalyzer/RequiresUnreferencedCodeAnalyzer.cs:44-73 | any operation yields at most two findings, none when the enclosing method is marked, all at the operation's location under IL2026 |
| `Analyzer.AnalyzeCompilation` | src/ILLink.RoslynAnalyzer/RequiresUnreferencedCodeAnalyzer.cs:36-44 | nothing is reported unless PublishTrimmed is on; at most two findings per operation |
| `Analyzer.SiteFindingsReported` | src/ILLink.RoslynAnalyzer/RequiresUnreferencedCodeAnalyzer.cs:44-73 | with PublishTrimmed on, every finding of every operation is reported for the compilation |
| `Analyzer.CompilationReportsExactlySiteFindings` | src/ILLink.RoslynAnalyzer/RequiresUnreferencedCodeAnalyzer.cs:44-73 | with PublishTrimmed on, a finding is reported iff some operation of the compilation produces it |
| `Analyzer.CompilationFindingsFromSites` | src/ILLink.RoslynAnalyzer/RequiresUnreferencedCodeAnalyzer.cs:44-73 | every finding of a compilation comes from one operation and carries that operation's location |
| `Scenarios.MarkedCallReported` | src/ILLink.RoslynAnalyzer/RequiresUnreferencedCodeAnalyzer.cs:85-91 | an unmarked caller invoking a marked method gets one finding with the method's name and message and no URL |
| `Scenarios.MarkedCallerSuppresses` | src/ILLink.RoslynAnalyzer/RequiresUnreferencedCodeAnalyzer.cs:81-84 | a marked caller gets no finding for the same call |
| `Scenarios.FieldInitializerNotSuppressed` | src/ILLink.RoslynAnalyzer/RequiresUnreferencedCodeAnalyzer.cs:82 | a marker on a containing symbol that is not a method does not suppress: the constructor call gets its full finding |
| `Scenarios.VirtualOverrideSkipped` | src/ILLink.RoslynAnalyzer/RequiresUnreferencedCodeAnalyzer.cs:46-49 | a virtual call to an override is skipped; a non-virtual call to the marked base method gets its full finding |
| `Scenarios.ReadWritePropertyTwoFindings` | src/ILLink.RoslynAnalyzer/RequiresUnreferencedCodeAnalyzer.cs:61-72 | a read-write use of a property with both accessors marked gives the getter's finding, then the setter's, at one location |
| `Scenarios.MalformedMarkerIgnored` | src/ILLink.RoslynAnalyzer/RequiresUnreferencedCodeAnalyzer.cs:127 | a marker-named attribute with two constructor arguments does not count, so nothing is reported |
| `Scenarios.ShimMarkerReportedWithUrl` | src/ILLink.RoslynAnalyzer/RequiresUnreferencedCodeAnalyzer.cs:91 | a marker class under an extra outer namespace still counts, and the URL is the first "Url" argument's |

## Left out

- Analyzer registration is not modelled: `Initialize`, concurrent execution, generated-code configuration and operation-action registration are host infrastructure. Each operation is analyzed independently, as a pure function.
- The `PublishTrimmed` MSBuild property lookup, with its trim and case-insensitive comparison to "true", is a boolean parameter of `Analyzer.AnalyzeCompilation`.
- The diagnostic descriptor, its category, severity and localized resource strings are static configuration. Only the rule id IL2026 is kept.
- Values the compiler computes are given as inputs: `GetValueUsageInfo` (a set of usage flags), `OriginalDefinition.ToString()` (an opaque display string) and `Syntax.GetLocation()` (an opaque location).
- Analyzer.AnalyzeCompilation: the host may report findings of different operations in any order; the model lists them in operation order.
- Marker.MessageOf: the cast of constructor argument 0 to string is modelled for string and null values only; a string-typed constant holds nothing else, so a non-string value is read as null instead of failing the cast.
- Marker.ValueText: an array-valued named argument, whose `Value` throws in the compiler, is not modelled; every other value is represented by its ToString() text.
- The linker test fixtures under `test/` consist of declarative expectation attributes and trivial bodies, so they are not modelled.
