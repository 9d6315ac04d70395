/**
 * Concrete call sites showing the check's documented behaviour: reporting,
 * suppression, the virtual-override exclusion, read-write property uses,
 * malformed markers, a marker class declared under an extra outer
 * namespace, and the URL.
 */
module Scenarios {
  import opened Wrappers
  import opened Symbols
  import opened Marker
  import opened Analyzer

  /** The marker class as declared by the framework, in the global namespace's System namespace. */
  const FrameworkMarker: NameChain := ["RequiresUnreferencedCodeAttribute", "CodeAnalysis", "Diagnostics", "System", ""]

  /** The same class declared by a library inside an outer namespace. */
  const ShimMarker: NameChain := ["RequiresUnreferencedCodeAttribute", "CodeAnalysis", "Diagnostics", "System", "Shim", ""]

  const Site := Location("Program.cs", 120, 135)

  function MarkerAttr(cls: NameChain, message: string, named: seq<NamedArgument>): AttributeData
  {
    AttributeData(Some(cls), [TypedConstant(Some(SystemString), StringValue(message))], named)
  }

  lemma FrameworkMarkerCounts(message: string, named: seq<NamedArgument>)
    ensures IsMarker(MarkerAttr(FrameworkMarker, message, named))
  {
    MarkerClassSpelled(FrameworkMarker);
    assert FrameworkMarker[..4] == ["RequiresUnreferencedCodeAttribute", "CodeAnalysis", "Diagnostics", "System"];
  }

  /** An unmarked caller invoking a marked method gets exactly one finding naming it, with its message. */
  lemma MarkedCallReported()
    ensures AnalyzeOperation(ContainingSymbol(true, []),
              Invocation(MethodSymbol("Marked.M()", [MarkerAttr(FrameworkMarker, "m1", [])], false), false, Site))
            == [Finding(DiagnosticId, Site, "Marked.M()", Some("m1"), None)]
  {
    FrameworkMarkerCounts("m1", []);
  }

  /** A marked caller suppresses the finding for the same call. */
  lemma MarkedCallerSuppresses()
    ensures AnalyzeOperation(ContainingSymbol(true, [MarkerAttr(FrameworkMarker, "c", [])]),
              Invocation(MethodSymbol("Marked.M()", [MarkerAttr(FrameworkMarker, "m1", [])], false), false, Site))
            == []
  {
    FrameworkMarkerCounts("c", []);
  }

  /** A marker on a containing symbol that is not a method, such as a field, does not suppress. */
  lemma FieldInitializerNotSuppressed()
    ensures AnalyzeOperation(ContainingSymbol(false, [MarkerAttr(FrameworkMarker, "c", [])]),
              ObjectCreation(MethodSymbol("Marked..ctor()", [MarkerAttr(FrameworkMarker, "m1", [])], false), Site))
            == [Finding(DiagnosticId, Site, "Marked..ctor()", Some("m1"), None)]
  {
    FrameworkMarkerCounts("m1", []);
  }

  /**
   * A virtual call resolving to an override is skipped even when the
   * override is marked, while a non-virtual call to the marked base
   * method (`base.V()`) is reported.
   */
  lemma VirtualOverrideSkipped()
    ensures AnalyzeOperation(ContainingSymbol(true, []),
              Invocation(MethodSymbol("D.V()", [MarkerAttr(FrameworkMarker, "v", [])], true), true, Site)) == []
    ensures AnalyzeOperation(ContainingSymbol(true, []),
              Invocation(MethodSymbol("B.V()", [MarkerAttr(FrameworkMarker, "v", [])], false), false, Site))
            == [Finding(DiagnosticId, Site, "B.V()", Some("v"), None)]
  {
    FrameworkMarkerCounts("v", []);
  }

  /** `x.P += 1` on a property whose accessors are both marked gives two findings at one location, getter first. */
  lemma ReadWritePropertyTwoFindings()
    ensures AnalyzeOperation(ContainingSymbol(true, []),
              PropertyReference(PropertySymbol(Some(MethodSymbol("C.P.get", [MarkerAttr(FrameworkMarker, "g", [])], false)),
                                               Some(MethodSymbol("C.P.set", [MarkerAttr(FrameworkMarker, "s", [])], false))),
                                {Read, Write}, Site))
            == [Finding(DiagnosticId, Site, "C.P.get", Some("g"), None), Finding(DiagnosticId, Site, "C.P.set", Some("s"), None)]
  {
    FrameworkMarkerCounts("g", []);
    FrameworkMarkerCounts("s", []);
  }

  /** A marker-named attribute with two constructor arguments is not a marker, so nothing is reported. */
  lemma MalformedMarkerIgnored()
    ensures AnalyzeOperation(ContainingSymbol(true, []),
              Invocation(MethodSymbol("Marked.M()",
                [AttributeData(Some(FrameworkMarker), [TypedConstant(Some(SystemString), StringValue("m")),
                                                       TypedConstant(Some(SystemString), StringValue("x"))], [])],
                false), false, Site)) == []
  {
  }

  /**
   * A marker class declared under an outer namespace still matches, since
   * links beyond the name's components are not compared; its URL is that
   * of the first argument keyed "Url".
   */
  lemma ShimMarkerReportedWithUrl()
    ensures AnalyzeOperation(ContainingSymbol(true, []),
              Invocation(MethodSymbol("Lib.N()",
                [MarkerAttr(ShimMarker, "n", [NamedArgument("Url", TypedConstant(Some(SystemString), StringValue("https://aka.ms/x"))),
                                             NamedArgument("Url", TypedConstant(Some(SystemString), StringValue("ignored")))])],
                false), false, Site))
            == [Finding(DiagnosticId, Site, "Lib.N()", Some("n"), Some("https://aka.ms/x"))]
  {
    MarkerClassSpelled(ShimMarker);
    assert ShimMarker[..4] == ["RequiresUnreferencedCodeAttribute", "CodeAnalysis", "Diagnostics", "System"];
  }
}
