/**
 * The IL2026 check at each call-like operation: which member a call site
 * reaches, when the enclosing member suppresses the warning, and what the
 * reported finding carries.
 */
module Analyzer {
  import opened Wrappers
  import opened Symbols
  import opened Marker

  /**
   * The enclosing member has opted into the hazard itself: it is a method
   * (or accessor) and carries the marker. Markers on any other kind of
   * containing symbol are not consulted.
   */
  predicate Suppressed(container: ContainingSymbol)
  {
    container.isMethod && HasMarker(container.attributes)
  }

  /** A call to `target` from inside `container` warrants a finding. */
  predicate Reported(container: ContainingSymbol, target: MethodSymbol)
  {
    !Suppressed(container) && HasMarker(target.attributes)
  }

  /**
   * The finding for a call to `target`: the target's display name, the
   * message of its first marker and that marker's URL, at the call site.
   */
  ghost predicate DescribesCall(f: Finding, target: MethodSymbol, location: Location)
  {
    f.id == DiagnosticId && f.location == location && f.memberName == target.display &&
    exists k :: IsFirstMarker(target.attributes, k) &&
      f.message == MessageOf(target.attributes[k]) &&
      f.url == UrlOf(target.attributes[k].namedArguments)
  }

  /**
   * The shared check for a method, constructor or accessor reached from
   * `container`. Suppression by the enclosing method wins; otherwise there
   * is one finding exactly when the target carries the marker.
   */
  function CheckMethodOrCtorCall(container: ContainingSymbol, target: MethodSymbol, location: Location): (r: seq<Finding>)
    ensures |r| <= 1
    ensures Suppressed(container) ==> r == []
    ensures |r| == 1 <==> Reported(container, target)
    ensures |r| == 1 ==> DescribesCall(r[0], target, location)
  {
    if container.isMethod && FindMarker(container.attributes).Some? then []
    else match FindMarker(target.attributes)
      case None => []
      case Some(marker) =>
        [Finding(DiagnosticId, location, target.display, MessageOf(marker), UrlOf(marker.namedArguments))]
  }

  /**
   * An invocation: skipped when it dispatches virtually to a method that
   * overrides another; otherwise its target method is checked.
   */
  function OnInvocation(container: ContainingSymbol, targetMethod: MethodSymbol, isVirtual: bool, location: Location): (r: seq<Finding>)
    ensures |r| <= 1
    ensures |r| == 1 <==> Reported(container, targetMethod) && !(isVirtual && targetMethod.overridesAnother)
    ensures |r| == 1 ==> DescribesCall(r[0], targetMethod, location)
  {
    if isVirtual && targetMethod.overridesAnother then []
    else CheckMethodOrCtorCall(container, targetMethod, location)
  }

  /** An object creation: its constructor is always checked. */
  function OnObjectCreation(container: ContainingSymbol, ctor: MethodSymbol, location: Location): (r: seq<Finding>)
    ensures |r| <= 1
    ensures |r| == 1 <==> Reported(container, ctor)
    ensures |r| == 1 ==> DescribesCall(r[0], ctor, location)
  {
    CheckMethodOrCtorCall(container, ctor, location)
  }

  /** The accessor a read use checks: the getter, when the use reads and it exists. */
  function ReadAccessor(property: PropertySymbol, usage: set<ValueUsage>): Option<MethodSymbol>
  {
    if Read in usage && property.getMethod.Some? then property.getMethod else None
  }

  /** The accessor a write use checks: the setter, when the use writes and it exists. */
  function WriteAccessor(property: PropertySymbol, usage: set<ValueUsage>): Option<MethodSymbol>
  {
    if Write in usage && property.setMethod.Some? then property.setMethod else None
  }

  /** An accessor that is checked and warrants a finding. */
  predicate AccessorReported(container: ContainingSymbol, accessor: Option<MethodSymbol>)
  {
    accessor.Some? && Reported(container, accessor.value)
  }

  /**
   * A property reference: the getter is checked for a read use and the
   * setter for a write use, both at the reference's location, getter first.
   */
  function OnPropertyReference(container: ContainingSymbol, property: PropertySymbol, usage: set<ValueUsage>, location: Location): (r: seq<Finding>)
    ensures |r| == (if AccessorReported(container, ReadAccessor(property, usage)) then 1 else 0)
                   + (if AccessorReported(container, WriteAccessor(property, usage)) then 1 else 0)
    ensures AccessorReported(container, ReadAccessor(property, usage)) ==>
              DescribesCall(r[0], property.getMethod.value, location)
    ensures AccessorReported(container, WriteAccessor(property, usage)) ==>
              DescribesCall(r[|r| - 1], property.setMethod.value, location)
  {
    (if Read in usage && property.getMethod.Some?
     then CheckMethodOrCtorCall(container, property.getMethod.value, location) else [])
    + (if Write in usage && property.setMethod.Some?
       then CheckMethodOrCtorCall(container, property.setMethod.value, location) else [])
  }

  /** Routes each operation kind to the callback registered for it. */
  function AnalyzeOperation(container: ContainingSymbol, op: Operation): (r: seq<Finding>)
    ensures |r| <= 2
    ensures Suppressed(container) ==> r == []
    ensures forall i :: 0 <= i < |r| ==> r[i].location == op.location && r[i].id == DiagnosticId
  {
    match op
    case Invocation(m, isVirtual, location) => OnInvocation(container, m, isVirtual, location)
    case ObjectCreation(c, location) => OnObjectCreation(container, c, location)
    case PropertyReference(p, usage, location) => OnPropertyReference(container, p, usage, location)
  }

  /**
   * A whole compilation: nothing is registered unless the project publishes
   * trimmed; otherwise each operation, with its containing symbol, is
   * analyzed on its own. The order of the findings stands for one order the
   * host may report them in.
   */
  function AnalyzeCompilation(publishTrimmed: bool, sites: seq<(ContainingSymbol, Operation)>): (r: seq<Finding>)
    ensures !publishTrimmed ==> r == []
    ensures |r| <= 2 * |sites|
  {
    if !publishTrimmed || |sites| == 0 then []
    else AnalyzeOperation(sites[0].0, sites[0].1) + AnalyzeCompilation(publishTrimmed, sites[1..])
  }

  /** Every finding of a compilation comes from one of its operations, at that operation's location. */
  lemma {:induction false} CompilationFindingsFromSites(publishTrimmed: bool, sites: seq<(ContainingSymbol, Operation)>, f: Finding)
    requires f in AnalyzeCompilation(publishTrimmed, sites)
    ensures exists j :: 0 <= j < |sites| && f in AnalyzeOperation(sites[j].0, sites[j].1) && f.location == sites[j].1.location
  {
    var here := AnalyzeOperation(sites[0].0, sites[0].1);
    if f in here {
      assert 0 < |sites| && f in AnalyzeOperation(sites[0].0, sites[0].1);
    } else {
      CompilationFindingsFromSites(publishTrimmed, sites[1..], f);
      var j :| 0 <= j < |sites[1..]| && f in AnalyzeOperation(sites[1..][j].0, sites[1..][j].1) && f.location == sites[1..][j].1.location;
      assert sites[1..][j] == sites[j + 1];
    }
  }

  /** With PublishTrimmed on, every finding of every operation is reported. */
  lemma {:induction false} SiteFindingsReported(sites: seq<(ContainingSymbol, Operation)>, j: int, f: Finding)
    requires 0 <= j < |sites| && f in AnalyzeOperation(sites[j].0, sites[j].1)
    ensures f in AnalyzeCompilation(true, sites)
  {
    if j > 0 {
      assert sites[1..][j - 1] == sites[j];
      SiteFindingsReported(sites[1..], j - 1, f);
    }
  }

  /** With PublishTrimmed on, a finding is reported exactly when some operation of the compilation produces it. */
  lemma CompilationReportsExactlySiteFindings(sites: seq<(ContainingSymbol, Operation)>, f: Finding)
    ensures f in AnalyzeCompilation(true, sites) <==>
              exists j :: 0 <= j < |sites| && f in AnalyzeOperation(sites[j].0, sites[j].1)
  {
    if f in AnalyzeCompilation(true, sites) {
      CompilationFindingsFromSites(true, sites, f);
    }
    if exists j :: 0 <= j < |sites| && f in AnalyzeOperation(sites[j].0, sites[j].1) {
      var j :| 0 <= j < |sites| && f in AnalyzeOperation(sites[j].0, sites[j].1);
      SiteFindingsReported(sites, j, f);
    }
  }
}
