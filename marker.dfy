/**
 * Finding the RequiresUnreferencedCode marker among a symbol's attributes,
 * and reading its message and documentation URL.
 */
module Marker {
  import opened Wrappers
  import opened Symbols
  import opened Naming

  const MarkerTypeName := "System.Diagnostics.CodeAnalysis.RequiresUnreferencedCodeAttribute"

  /** The marker's qualified name, outermost component first. */
  const MarkerParts: seq<string> := ["System", "Diagnostics", "CodeAnalysis", "RequiresUnreferencedCodeAttribute"]

  const UrlKey := "Url"

  /**
   * An attribute counts as the marker when its class is bound and has the
   * marker's qualified name, and it has exactly one constructor argument,
   * whose type is System.String. Anything else is skipped, not an error.
   */
  predicate IsMarker(a: AttributeData)
  {
    a.attributeClass.Some? &&
    IsMarkerClass(a.attributeClass.value) &&
    |a.constructorArguments| == 1 &&
    a.constructorArguments[0].typeOf == Some(SystemString)
  }

  /**
   * A class whose chain starts with the marker's components, innermost
   * first; MarkerClassMatches shows this is what the name walk decides for
   * the marker's qualified name.
   */
  predicate IsMarkerClass(chain: NameChain)
  {
    |chain| >= 4 && chain[..4] == Reverse(MarkerParts)
  }

  predicate HasMarker(attrs: seq<AttributeData>)
  {
    exists i :: 0 <= i < |attrs| && IsMarker(attrs[i])
  }

  /** `attrs[k]` is a marker and no attribute declared before it is. */
  predicate IsFirstMarker(attrs: seq<AttributeData>, k: int)
  {
    0 <= k < |attrs| && IsMarker(attrs[k]) &&
    forall j :: 0 <= j < k ==> !IsMarker(attrs[j])
  }

  /** The first marker in declaration order, if any. */
  function FindMarker(attrs: seq<AttributeData>): (r: Option<AttributeData>)
    ensures r.None? <==> !HasMarker(attrs)
    ensures r.Some? ==> exists k :: IsFirstMarker(attrs, k) && attrs[k] == r.value
  {
    if |attrs| == 0 then None
    else if IsMarker(attrs[0]) then
      assert IsFirstMarker(attrs, 0);
      Some(attrs[0])
    else
      var r := FindMarker(attrs[1..]);
      assert forall i :: 1 <= i < |attrs| ==> attrs[i] == attrs[1..][i - 1];
      if r.Some? then
        var k :| IsFirstMarker(attrs[1..], k) && attrs[1..][k] == r.value;
        assert IsFirstMarker(attrs, k + 1);
        r
      else r
  }

  /** Only one attribute can be the first marker. */
  lemma FirstMarkerUnique(attrs: seq<AttributeData>, k: int, m: int)
    requires IsFirstMarker(attrs, k) && IsFirstMarker(attrs, m)
    ensures k == m
  {
  }

  /**
   * The analyzer's scan: returns the first attribute in declaration order
   * that counts as the marker; when none does, it returns false and leaves
   * the out value null.
   */
  method TryGetRequiresUnreferencedCodeAttribute(attributes: seq<AttributeData>)
    returns (found: bool, requiresUnreferencedCode: Option<AttributeData>)
    ensures found <==> HasMarker(attributes)
    ensures found <==> requiresUnreferencedCode.Some?
    ensures found ==> exists k :: IsFirstMarker(attributes, k) && requiresUnreferencedCode == Some(attributes[k])
    ensures requiresUnreferencedCode == FindMarker(attributes)
  {
    requiresUnreferencedCode := None;
    for i := 0 to |attributes|
      invariant forall j :: 0 <= j < i ==> !IsMarker(attributes[j])
    {
      var attr := attributes[i];
      var qualifies := Qualifies(attr);
      if qualifies {
        requiresUnreferencedCode := Some(attr);
        assert IsFirstMarker(attributes, i);
        FindMarkerIsFirst(attributes, i);
        return true, requiresUnreferencedCode;
      }
    }
    return false, requiresUnreferencedCode;
  }

  /**
   * The condition the scan tests on each attribute, evaluated left to
   * right: the name walk runs only when the class is bound.
   */
  method Qualifies(attr: AttributeData) returns (b: bool)
    ensures b <==> IsMarker(attr)
  {
    b := false;
    if attr.attributeClass.Some? {
      var named := IsNamedType(attr.attributeClass.value, MarkerTypeName);
      MarkerClassMatches(attr.attributeClass.value);
      b := named && |attr.constructorArguments| == 1 && attr.constructorArguments[0].typeOf == Some(SystemString);
    }
  }

  /** FindMarker yields exactly the first marker. */
  lemma FindMarkerIsFirst(attrs: seq<AttributeData>, k: int)
    requires IsFirstMarker(attrs, k)
    ensures FindMarker(attrs) == Some(attrs[k])
  {
    var r := FindMarker(attrs);
    var m :| IsFirstMarker(attrs, m) && attrs[m] == r.value;
    FirstMarkerUnique(attrs, k, m);
  }

  /** Once a marker has been seen, attributes declared after it are ignored. */
  lemma {:induction false} LaterAttributesIgnored(attrs: seq<AttributeData>, later: seq<AttributeData>)
    requires HasMarker(attrs)
    ensures FindMarker(attrs + later) == FindMarker(attrs)
  {
    if IsMarker(attrs[0]) {
      assert (attrs + later)[0] == attrs[0];
    } else {
      assert (attrs + later)[1..] == attrs[1..] + later;
      var i :| 0 <= i < |attrs| && IsMarker(attrs[i]);
      assert attrs[1..][i - 1] == attrs[i];
      LaterAttributesIgnored(attrs[1..], later);
    }
  }

  /** Attributes that do not count as the marker never change the outcome. */
  lemma {:induction false} NonMarkersSkipped(skipped: seq<AttributeData>, attrs: seq<AttributeData>)
    requires !HasMarker(skipped)
    ensures FindMarker(skipped + attrs) == FindMarker(attrs)
  {
    if |skipped| > 0 {
      assert (skipped + attrs)[0] == skipped[0];
      assert (skipped + attrs)[1..] == skipped[1..] + attrs;
      assert !HasMarker(skipped[1..]) by {
        forall i | 0 <= i < |skipped[1..]| ensures !IsMarker(skipped[1..][i]) {
          assert skipped[1..][i] == skipped[i + 1];
        }
      }
      NonMarkersSkipped(skipped[1..], attrs);
    } else {
      assert skipped + attrs == attrs;
    }
  }

  /**
   * The marker's class test holds exactly for chains that start with
   * RequiresUnreferencedCodeAttribute, CodeAnalysis, Diagnostics, System,
   * whatever lies beyond them.
   */
  lemma MarkerClassMatches(chain: NameChain)
    ensures NameMatches(chain, MarkerTypeName) <==> IsMarkerClass(chain)
  {
    MarkerNameJoined();
    assert DotFree(MarkerParts) by {
      assert '.' !in MarkerParts[0];
      assert '.' !in MarkerParts[1];
      assert '.' !in MarkerParts[2];
      assert '.' !in MarkerParts[3];
    }
    NameMatchesJoin(chain, MarkerParts);
  }

  /** Spelled out, the marker class test reads the four innermost links of the chain. */
  lemma MarkerClassSpelled(chain: NameChain)
    ensures IsMarkerClass(chain) <==>
              |chain| >= 4 && chain[..4] == ["RequiresUnreferencedCodeAttribute", "CodeAnalysis", "Diagnostics", "System"]
  {
    MarkerPartsReversed();
  }

  lemma MarkerPartsReversed()
    ensures Reverse(MarkerParts) == ["RequiresUnreferencedCodeAttribute", "CodeAnalysis", "Diagnostics", "System"]
  {
    var p3, p2, p1 := ["System", "Diagnostics", "CodeAnalysis"], ["System", "Diagnostics"], ["System"];
    assert MarkerParts[..3] == p3 && p3[..2] == p2 && p2[..1] == p1 && p1[..0] == [];
    assert Reverse(p1) == ["System"];
    assert Reverse(p2) == ["Diagnostics", "System"];
    assert Reverse(p3) == ["CodeAnalysis", "Diagnostics", "System"];
  }

  /** The marker's qualified name is its components joined with dots. */
  lemma MarkerNameJoined()
    ensures Join(MarkerParts) == MarkerTypeName
  {
    NamespaceJoined();
    assert MarkerParts[..3] == ["System", "Diagnostics", "CodeAnalysis"];
    assert Join(MarkerParts) == "System.Diagnostics.CodeAnalysis" + "." + "RequiresUnreferencedCodeAttribute";
    MarkerNameSpelled();
  }

  lemma NamespaceJoined()
    ensures Join(["System", "Diagnostics", "CodeAnalysis"]) == "System.Diagnostics.CodeAnalysis"
  {
    var p := ["System", "Diagnostics", "CodeAnalysis"];
    assert p[..2] == ["System", "Diagnostics"];
    assert p[..2][..1] == ["System"];
  }

  lemma MarkerNameSpelled()
    ensures "System.Diagnostics.CodeAnalysis" + "." + "RequiresUnreferencedCodeAttribute" == MarkerTypeName
  {
  }

  /**
   * The text of a constant as the diagnostic argument sees it: null stays
   * null, anything else is its ToString() text.
   */
  function ValueText(v: ConstantValue): (r: Option<string>)
    ensures r.None? <==> v.NullValue?
  {
    match v
    case NullValue => None
    case StringValue(s) => Some(s)
    case OtherValue(text) => Some(text)
  }

  /**
   * The message: the marker's constructor argument 0 cast to string. A
   * string-typed constant holds a string or null; null stays null.
   */
  function MessageOf(marker: AttributeData): (r: Option<string>)
    requires |marker.constructorArguments| >= 1
    ensures r.Some? <==> marker.constructorArguments[0].value.StringValue?
    ensures r.Some? ==> r.value == marker.constructorArguments[0].value.s
  {
    match marker.constructorArguments[0].value
    case StringValue(s) => Some(s)
    case _ => None
  }

  predicate IsFirstUrl(named: seq<NamedArgument>, k: int)
  {
    0 <= k < |named| && named[k].key == UrlKey &&
    forall j :: 0 <= j < k ==> named[j].key != UrlKey
  }

  /**
   * The URL: the text of the first named argument keyed "Url", or null
   * when there is no such argument or its value is null.
   */
  function UrlOf(named: seq<NamedArgument>): (r: Option<string>)
    ensures (forall i :: 0 <= i < |named| ==> named[i].key != UrlKey) ==> r.None?
    ensures forall k :: IsFirstUrl(named, k) ==> r == ValueText(named[k].value.value)
  {
    if |named| == 0 then None
    else if named[0].key == UrlKey then ValueText(named[0].value.value)
    else
      var r := UrlOf(named[1..]);
      assert forall k :: IsFirstUrl(named, k) ==> k >= 1 && IsFirstUrl(named[1..], k - 1);
      r
  }
}
