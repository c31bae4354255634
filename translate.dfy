/**
 * Translation from SPDX to CycloneDX, and the SPDX pseudo-package that
 * stands for a container image (pkg/sbom/spdx.go).
 */
module SbomSpdx {
  import opened Options
  import opened GoStrings
  import opened CycloneDx
  import opened Spdx

  /**
   * `ImageToPackage`: the package standing for image `image`, written
   * "name:tag". Its identifier is "image-" followed by the image, its name
   * the text before the first colon and its version the text between the
   * first and the second colon; the mandatory SPDX 2.2 section 3 fields are
   * "NOASSERTION", and it asserts that its files were not analyzed. The
   * image needs a colon: without one there is no version field to read.
   */
  function ImageToPackage(image: string): (p: Package)
    requires ':' in image
    ensures p.spdxId == "image-" + image
    ensures p.downloadLocation == NoAssertion && p.licenseConcluded == NoAssertion
    ensures p.licenseDeclared == NoAssertion && p.copyrightText == NoAssertion
    ensures !p.filesAnalyzed && p.isFilesAnalyzedTagPresent
  {
    var parts := Split(image, ':');
    assert |parts| >= 2 by { CountMember(image, ':'); }
    ZeroPackage.(
      name := parts[0],
      spdxId := "image-" + image,
      version := parts[1],
      downloadLocation := NoAssertion,
      filesAnalyzed := false,
      isFilesAnalyzedTagPresent := true,
      licenseConcluded := NoAssertion,
      licenseDeclared := NoAssertion,
      copyrightText := NoAssertion)
  }

  /**
   * The image pseudo-package's name and version are the first two
   * colon-separated fields of the image: together with a colon they begin
   * the image, and they make up all of it exactly when it has one colon;
   * otherwise the second colon follows the version.
   */
  lemma ImagePackageNameVersion(image: string)
    requires ':' in image
    ensures var p := ImageToPackage(image);
      && ':' !in p.name && ':' !in p.version
      && HasPrefix(image, p.name + ":" + p.version)
      && (image == p.name + ":" + p.version <==> Count(image, ':') == 1)
      && (Count(image, ':') >= 2 ==> |p.name| + 1 + |p.version| < |image|
                                     && image[|p.name| + 1 + |p.version|] == ':')
  {
    CountMember(image, ':');
    SplitFieldsHaveNoSeparator(image, ':');
    SplitFirstTwoFields(image, ':');
  }

  /** The ref types whose locator is a CPE name. */
  const CpeRefTypes: set<string> := {Cpe23ExternalRefType, Cpe22ExternalRefType}
  const PurlRefTypes: set<string> := {PurlExternalRefType}

  /**
   * The locator of the last reference whose type is in `types`, or "" when
   * there is none: several references of a kind fold into one value, the
   * last one winning.
   */
  function LastLocator(refs: seq<ExternalRef>, types: set<string>): (loc: string)
    ensures || (exists i :: 0 <= i < |refs| && refs[i].refType in types && loc == refs[i].locator
                  && forall j :: i < j < |refs| ==> refs[j].refType !in types)
            || (loc == "" && forall j :: 0 <= j < |refs| ==> refs[j].refType !in types)
  {
    if refs == [] then ""
    else if refs[|refs| - 1].refType in types then refs[|refs| - 1].locator
    else
      var loc := LastLocator(refs[..|refs| - 1], types);
      assert forall j :: 0 <= j < |refs| - 1 ==> refs[..|refs| - 1][j] == refs[j];
      loc
  }

  /**
   * The component type an SPDX identifier selects: "application" exactly
   * when it contains "cpe-", and "container" otherwise, "-image-" or not.
   */
  function ComponentTypeFor(spdxId: string): (kind: string)
    ensures kind == ComponentTypeApplication <==> Contains(spdxId, "cpe-")
    ensures kind == ComponentTypeContainer <==> !Contains(spdxId, "cpe-")
  {
    var kind := ComponentTypeContainer;
    var kind := if Contains(spdxId, "-image-") then ComponentTypeContainer else kind;
    if Contains(spdxId, "cpe-") then ComponentTypeApplication else kind
  }

  /** The component a package converts to. */
  function ComponentOf(p: Package): Component {
    Component("", ComponentTypeFor(p.spdxId), p.name, p.version,
              LastLocator(p.externalRefs, CpeRefTypes), LastLocator(p.externalRefs, PurlRefTypes))
  }

  /**
   * `SPDXPackageToCycloneComponent`: name and version are copied; the type
   * is "application" exactly when the identifier contains "cpe-" and
   * "container" otherwise; the CPE and the package URL are the locators of
   * the last reference of their kind. No bom-ref is set.
   */
  method SPDXPackageToCycloneComponent(p: Package) returns (component: Component)
    ensures component == ComponentOf(p)
    ensures component.name == p.name && component.version == p.version && component.bomRef == ""
    ensures component.kind == ComponentTypeApplication <==> Contains(p.spdxId, "cpe-")
    ensures component.kind == ComponentTypeContainer <==> !Contains(p.spdxId, "cpe-")
  {
    component := Component("", ComponentTypeContainer, p.name, p.version, "", "");
    if Contains(p.spdxId, "-image-") {
      component := component.(kind := ComponentTypeContainer);
    }
    if Contains(p.spdxId, "cpe-") {
      component := component.(kind := ComponentTypeApplication);
    }
    assert component.kind == ComponentTypeFor(p.spdxId);
    var refs := p.externalRefs;
    var kind := component.kind;
    var i := 0;
    while i < |refs|
      invariant 0 <= i <= |refs|
      invariant component == Component("", kind, p.name, p.version,
                                       LastLocator(refs[..i], CpeRefTypes), LastLocator(refs[..i], PurlRefTypes))
    {
      assert refs[..i + 1][..i] == refs[..i];
      var ext := refs[i];
      if ext.refType == Cpe23ExternalRefType || ext.refType == Cpe22ExternalRefType {
        component := component.(cpe := ext.locator);
      }
      if ext.refType == PurlExternalRefType {
        component := component.(purl := ext.locator);
      }
      i := i + 1;
    }
    assert refs[..i] == refs;
  }

  /** A later reference of a kind replaces every earlier one. */
  lemma LastLocatorAppend(refs: seq<ExternalRef>, more: seq<ExternalRef>, types: set<string>)
    ensures (exists j :: 0 <= j < |more| && more[j].refType in types)
        ==> LastLocator(refs + more, types) == LastLocator(more, types)
    ensures (forall j :: 0 <= j < |more| ==> more[j].refType !in types)
        ==> LastLocator(refs + more, types) == LastLocator(refs, types)
    decreases |more|
  {
    if more != [] {
      var n := |more| - 1;
      assert (refs + more)[..|refs + more| - 1] == refs + more[..n];
      LastLocatorAppend(refs, more[..n], types);
      assert forall j :: 0 <= j < n ==> more[..n][j] == more[j];
    } else {
      assert refs + more == refs;
    }
  }

  /** Distinct elements: a sequence lists each value once. */
  predicate Distinct<T(==)>(s: seq<T>) {
    forall i, j :: 0 <= i < j < |s| ==> s[i] != s[j]
  }

  lemma {:induction false} DistinctCardinality<T>(s: seq<T>)
    requires Distinct(s)
    ensures |set x | x in s| == |s|
    decreases |s|
  {
    if s != [] {
      var n := |s| - 1;
      DistinctCardinality(s[..n]);
      assert (set x | x in s) == (set x | x in s[..n]) + {s[n]};
      assert s[n] !in (set x | x in s[..n]);
    }
  }

  /**
   * `ToCycloneDX`: one component per package, in the order the package map
   * is visited (`order`, which lists every package identifier once), under
   * metadata whose timestamp is the document's creation time and whose
   * subject is named after the document.
   */
  method ToCycloneDX(doc: Document) returns (bom: Bom, ghost order: seq<string>)
    ensures bom.metadata == Some(Metadata(doc.creationInfo.created,
                                          Some(NamedComponent(doc.creationInfo.documentName))))
    ensures bom.dependencies == Nil
    ensures Distinct(order) && (forall k :: k in order <==> k in doc.packages)
    ensures bom.components.Some? && |bom.components.value| == |order| == |doc.packages|
    ensures forall i :: 0 <= i < |order| ==> bom.components.value[i] == ComponentOf(doc.packages[order[i]])
  {
    var components: seq<Component> := [];
    order := [];
    var remaining := doc.packages.Keys;
    while remaining != {}
      invariant remaining <= doc.packages.Keys
      invariant Distinct(order) && |components| == |order|
      invariant forall k :: k in order <==> k in doc.packages && k !in remaining
      invariant forall i :: 0 <= i < |order| ==> components[i] == ComponentOf(doc.packages[order[i]])
      decreases remaining
    {
      var id :| id in remaining;
      var c := SPDXPackageToCycloneComponent(doc.packages[id]);
      components := components + [c];
      order := order + [id];
      remaining := remaining - {id};
    }
    DistinctCardinality(order);
    assert (set x | x in order) == doc.packages.Keys;
    bom := Bom(Some(Metadata(doc.creationInfo.created, Some(NamedComponent(doc.creationInfo.documentName)))),
               Some(components), Nil);
  }
}
