/**
 * Structural matching of a type against a dotted qualified name, walking
 * the type's containment chain outward while the name is consumed from
 * the right. The marker attribute may be defined by several assemblies,
 * so the match is by name and not by type identity.
 */
module Naming {
  import opened Symbols

  /** The index of the last '.' in `s`, or -1 when there is none. */
  function LastDot(s: string): (r: int)
    ensures -1 <= r < |s|
    ensures r >= 0 ==> s[r] == '.'
    ensures forall i :: r < i < |s| ==> s[i] != '.'
  {
    if |s| == 0 then -1
    else if s[|s| - 1] == '.' then |s| - 1
    else LastDot(s[..|s| - 1])
  }

  /** The name compared in one step: the text after the last dot. */
  function LastComponent(s: string): string
  {
    var dot := LastDot(s);
    if dot < 0 then s else s[dot + 1..]
  }

  /** What is left for the next step: the text before the last dot (nothing if the dot is first). */
  function RestBeforeDot(s: string): string
  {
    var dot := LastDot(s);
    s[..if dot > 0 then dot else 0]
  }

  /**
   * The components the walk compares, innermost first. A component never
   * contains a dot; a non-empty name has at least one component and never
   * more than it has characters.
   */
  function Components(s: string): (r: seq<string>)
    ensures s == [] <==> r == []
    ensures |r| <= |s|
    ensures forall i :: 0 <= i < |r| ==> '.' !in r[i]
    decreases |s|
  {
    if |s| == 0 then [] else [LastComponent(s)] + Components(RestBeforeDot(s))
  }

  /**
   * The type with containment chain `chain` has the name `typeName`: its
   * components match the first links of the chain, innermost first. Links
   * beyond the components are not inspected.
   */
  predicate NameMatches(chain: NameChain, typeName: string)
  {
    var parts := Components(typeName);
    |parts| <= |chain| && chain[..|parts|] == parts
  }

  /**
   * The loop of the analyzer: `len` is the length of the remaining span
   * (always a prefix of `typeName`) and `depth` the position of the current
   * containing symbol in the chain, null once `depth == |chain|`.
   */
  method IsNamedType(chain: NameChain, typeName: string) returns (b: bool)
    ensures b <==> NameMatches(chain, typeName)
  {
    var len := |typeName|;
    var depth := 0;
    assert typeName[..len] == typeName;
    while len > 0
      invariant 0 <= len <= |typeName|
      invariant depth <= |chain|
      invariant Components(typeName) == chain[..depth] + Components(typeName[..len])
      decreases len
    {
      var span := typeName[..len];
      var dot := LastDot(span);
      var currentName := if dot < 0 then span else span[dot + 1..];
      ghost var rest := Components(RestBeforeDot(span));
      assert Components(span) == [currentName] + rest;
      assert Components(typeName) == chain[..depth] + [currentName] + rest;
      if depth == |chain| || currentName != chain[depth] {
        assert |Components(typeName)| > depth && Components(typeName)[depth] == currentName;
        return false;
      }
      depth := depth + 1;
      len := if dot > 0 then dot else 0;
      assert RestBeforeDot(span) == typeName[..len];
      assert chain[..depth] == chain[..depth - 1] + [currentName];
    }
    assert typeName[..len] == [];
    return true;
  }

  /** Joins components, outermost first, with dots. */
  function Join(parts: seq<string>): string
  {
    if |parts| == 0 then ""
    else if |parts| == 1 then parts[0]
    else Join(parts[..|parts| - 1]) + "." + parts[|parts| - 1]
  }

  function Reverse<T>(s: seq<T>): seq<T>
  {
    if |s| == 0 then [] else [s[|s| - 1]] + Reverse(s[..|s| - 1])
  }

  predicate DotFree(parts: seq<string>)
  {
    forall i :: 0 <= i < |parts| ==> '.' !in parts[i]
  }

  lemma {:induction false} JoinNonEmpty(parts: seq<string>)
    requires |parts| > 0 && parts[0] != ""
    ensures Join(parts) != ""
  {
    if |parts| > 1 {
      JoinNonEmpty(parts[..|parts| - 1]);
    }
  }

  /** The last dot is found wherever a dot is followed only by dot-free text. */
  lemma LastDotAt(s: string, k: int)
    requires 0 <= k < |s| && s[k] == '.'
    requires forall i :: k < i < |s| ==> s[i] != '.'
    ensures LastDot(s) == k
  {
  }

  /**
   * Splitting a joined qualified name gives back its components, innermost
   * first, provided no component holds a dot and the outermost is not
   * empty (a leading empty component is dropped by the walk).
   */
  lemma {:induction false} ComponentsOfJoin(parts: seq<string>)
    requires DotFree(parts)
    requires |parts| > 0 ==> parts[0] != ""
    ensures Components(Join(parts)) == Reverse(parts)
  {
    if |parts| == 1 {
      var s := parts[0];
      assert '.' !in s;
      assert LastDot(s) == -1;
      assert RestBeforeDot(s) == [];
    } else if |parts| > 1 {
      var init, last := parts[..|parts| - 1], parts[|parts| - 1];
      var head := Join(init);
      var s := head + "." + last;
      assert Join(parts) == s;
      assert '.' !in last;
      LastDotAt(s, |head|);
      JoinNonEmpty(init);
      assert s[|head| + 1..] == last;
      assert s[..|head|] == head;
      assert LastComponent(s) == last;
      assert RestBeforeDot(s) == head;
      assert DotFree(init) by {
        forall i | 0 <= i < |init| ensures '.' !in init[i] { assert init[i] == parts[i]; }
      }
      ComponentsOfJoin(init);
    }
  }

  /**
   * A type matches a qualified name built from dot-free components exactly
   * when its chain begins with those components, innermost first.
   */
  lemma NameMatchesJoin(chain: NameChain, parts: seq<string>)
    requires DotFree(parts)
    requires |parts| > 0 ==> parts[0] != ""
    ensures NameMatches(chain, Join(parts)) <==>
              |parts| <= |chain| && chain[..|parts|] == Reverse(parts)
  {
    ComponentsOfJoin(parts);
    var name := Join(parts);
    assert Components(name) == Reverse(parts);
    assert NameMatches(chain, name) == (|Reverse(parts)| <= |chain| && chain[..|Reverse(parts)|] == Reverse(parts));
    ReverseLength(parts);
  }

  lemma {:induction false} ReverseLength<T>(s: seq<T>)
    ensures |Reverse(s)| == |s|
  {
    if |s| > 0 {
      ReverseLength(s[..|s| - 1]);
    }
  }

  /**
   * The walk fails exactly when the chain runs out while components remain
   * or some component differs from its link; otherwise it succeeds, and the
   * empty name matches every type.
   */
  lemma NameMismatch(chain: NameChain, typeName: string)
    ensures !NameMatches(chain, typeName) <==>
              |Components(typeName)| > |chain| ||
              exists i :: 0 <= i < |Components(typeName)| && Components(typeName)[i] != chain[i]
    ensures typeName == "" ==> NameMatches(chain, typeName)
  {
  }

  /** Links outside the name's components are never inspected. */
  lemma OuterLinksIgnored(chain: NameChain, outer: NameChain, typeName: string)
    requires NameMatches(chain, typeName)
    ensures NameMatches(chain + outer, typeName)
  {
    var n := |Components(typeName)|;
    assert (chain + outer)[..n] == chain[..n];
  }
}
