/**
 * Composing a chart's bill of materials (`create`, cmd/create.go): an SPDX
 * document whose packages are one pseudo-package per image, the packages
 * the image scanner found in each image, and one pseudo-package per CPE
 * name of the chart; and its CycloneDX form, whose dependency list says
 * that the chart depends on its images and each image on its packages.
 */
module Create {
  import opened Options
  import opened GoStrings
  import opened CycloneDx
  import opened Spdx
  import opened Helm
  import opened SbomSpdx

  /** The creation information of a chart's document, created at `created`. */
  function ChartCreationInfo(chartName: string, created: string): (info: CreationInfo)
    ensures info.documentName == chartName && info.created == created
  {
    CreationInfo("SPDX-2.2", "CC0-1.0", "DOCUMENT", chartName,
                 "https://bigbang.dev/chart/" + chartName,
                 ["Defenuse Unicorns"], ["sbom-cli"], created)
  }

  /**
   * The pseudo-package of CPE name `cpe`, such as "2.3:a:vendor:product:1.0":
   * named after its fourth field, identified by "cpe-" and the name, with
   * the name as its one CPE 2.3 reference. The name needs four fields.
   */
  function CpePackage(cpe: string): (p: Package)
    requires |Split(cpe, ':')| >= 4
    ensures p.spdxId == "cpe-" + cpe && p.name == Split(cpe, ':')[3]
    ensures p.externalRefs == [ExternalRef("", Cpe23ExternalRefType, cpe)]
  {
    ZeroPackage.(
      name := Split(cpe, ':')[3],
      spdxId := "cpe-" + cpe,
      externalRefs := [ExternalRef("", Cpe23ExternalRefType, cpe)])
  }

  /** What the scan of every listed image must provide: a result whose document names an image "name:tag". */
  predicate Scanned(imageList: seq<string>, scans: map<string, Document>) {
    forall i :: 0 <= i < |imageList| ==>
      imageList[i] in scans && ':' in scans[imageList[i]].creationInfo.documentName
  }

  predicate CpesHaveFourFields(cpes: seq<string>) {
    forall i :: 0 <= i < |cpes| ==> |Split(cpes[i], ':')| >= 4
  }

  /**
   * The packages contributed by the images, image after image: the image's
   * pseudo-package under "image-" and the image, then the scan's packages
   * under their own identifiers, later entries replacing earlier ones.
   */
  function ImagePackages(imageList: seq<string>, scans: map<string, Document>): map<string, Package>
    requires Scanned(imageList, scans)
  {
    if imageList == [] then map[]
    else
      var n := |imageList| - 1;
      var image := imageList[n];
      var scan := scans[image];
      ImagePackages(imageList[..n], scans)["image-" + image := ImageToPackage(scan.creationInfo.documentName)]
      + scan.packages
  }

  /** `base` with the pseudo-package of every CPE name added, CPE after CPE. */
  function WithCpePackages(base: map<string, Package>, cpes: seq<string>): map<string, Package>
    requires CpesHaveFourFields(cpes)
  {
    if cpes == [] then base
    else
      var n := |cpes| - 1;
      WithCpePackages(base, cpes[..n])["cpe-" + cpes[n] := CpePackage(cpes[n])]
  }

  /** The packages of a chart's document. */
  function ChartPackages(imageList: seq<string>, scans: map<string, Document>, cpes: seq<string>): map<string, Package>
    requires Scanned(imageList, scans) && CpesHaveFourFields(cpes)
  {
    WithCpePackages(ImagePackages(imageList, scans), cpes)
  }

  /**
   * The package map of a chart's document, filled in place: images in list
   * order, each scan's packages in the scanner's map order, then the CPE
   * pseudo-packages; also the scan result of every image.
   */
  method BuildChartPackages(imageList: seq<string>, scans: map<string, Document>, cpes: seq<string>)
    returns (packages: map<string, Package>, imageMap: map<string, Document>)
    requires Scanned(imageList, scans) && CpesHaveFourFields(cpes)
    ensures packages == ChartPackages(imageList, scans, cpes)
    ensures forall i :: i in imageMap <==> i in imageList
    ensures forall i :: i in imageMap ==> i in scans && imageMap[i] == scans[i]
  {
    packages, imageMap := AddImages(imageList, scans);
    packages := AddCpes(packages, cpes);
  }

  /** The loop over the images. */
  method AddImages(imageList: seq<string>, scans: map<string, Document>)
    returns (packages: map<string, Package>, imageMap: map<string, Document>)
    requires Scanned(imageList, scans)
    ensures packages == ImagePackages(imageList, scans)
    ensures forall i :: i in imageMap <==> i in imageList
    ensures forall i :: i in imageMap ==> i in scans && imageMap[i] == scans[i]
  {
    packages := map[];
    imageMap := map[];
    var n := 0;
    while n < |imageList|
      invariant 0 <= n <= |imageList|
      invariant packages == ImagePackages(imageList[..n], scans)
      invariant forall i :: i in imageMap <==> i in imageList[..n]
      invariant forall i :: i in imageMap ==> i in scans && imageMap[i] == scans[i]
    {
      var image := imageList[n];
      var doc := scans[image];
      imageMap := imageMap[image := doc];
      packages := packages["image-" + image := ImageToPackage(doc.creationInfo.documentName)];
      packages := CopyPackages(packages, doc.packages);
      assert imageList[..n + 1][..n] == imageList[..n];
      assert imageList[..n + 1] == imageList[..n] + [image];
      n := n + 1;
    }
    assert imageList[..n] == imageList;
  }

  /** The loop that copies a scan's packages, in the scanner's map order. */
  method CopyPackages(base: map<string, Package>, scanned: map<string, Package>)
    returns (packages: map<string, Package>)
    ensures packages == base + scanned
  {
    packages := base;
    var remaining := scanned.Keys;
    while remaining != {}
      invariant remaining <= scanned.Keys
      invariant packages == base + map k | k in scanned && k !in remaining :: scanned[k]
      decreases remaining
    {
      var k :| k in remaining;
      packages := packages[k := scanned[k]];
      remaining := remaining - {k};
    }
    assert (map k | k in scanned && k !in remaining :: scanned[k]) == scanned;
  }

  /** The loop over the CPE names. */
  method AddCpes(base: map<string, Package>, cpes: seq<string>) returns (packages: map<string, Package>)
    requires CpesHaveFourFields(cpes)
    ensures packages == WithCpePackages(base, cpes)
  {
    packages := base;
    var c := 0;
    while c < |cpes|
      invariant 0 <= c <= |cpes|
      invariant packages == WithCpePackages(base, cpes[..c])
    {
      var cpe := cpes[c];
      assert cpes[..c + 1][..c] == cpes[..c];
      packages := packages["cpe-" + cpe := CpePackage(cpe)];
      c := c + 1;
    }
    assert cpes[..c] == cpes;
  }

  /** Image `image`, whose scan is `scan`, writes key `k` of the package map. */
  predicate WritesKey(image: string, scan: Document, k: string) {
    k == "image-" + image || k in scan.packages
  }

  /** What image `image` writes under `k`: the scan's package, which is written after the image's own. */
  function Written(image: string, scan: Document, k: string): Package
    requires ':' in scan.creationInfo.documentName
  {
    if k in scan.packages then scan.packages[k] else ImageToPackage(scan.creationInfo.documentName)
  }

  /** The images' packages hold exactly the keys some image writes. */
  lemma {:induction false} ImagePackagesKeys(imageList: seq<string>, scans: map<string, Document>, k: string)
    requires Scanned(imageList, scans)
    ensures k in ImagePackages(imageList, scans)
        <==> exists j :: 0 <= j < |imageList| && WritesKey(imageList[j], scans[imageList[j]], k)
    decreases |imageList|
  {
    if imageList != [] {
      var n := |imageList| - 1;
      var front := imageList[..n];
      assert forall j :: 0 <= j < n ==> front[j] == imageList[j];
      ImagePackagesKeys(front, scans, k);
      if WritesKey(imageList[n], scans[imageList[n]], k) {
        assert k in ImagePackages(imageList, scans);
      }
    }
  }

  /** Image `j` is the last image of the list that writes key `k`. */
  predicate LastWriter(imageList: seq<string>, scans: map<string, Document>, k: string, j: int)
    requires Scanned(imageList, scans)
  {
    && 0 <= j < |imageList| && WritesKey(imageList[j], scans[imageList[j]], k)
    && forall l :: j < l < |imageList| ==> !WritesKey(imageList[l], scans[imageList[l]], k)
  }

  /** The last image that writes a key decides its entry. */
  lemma {:induction false} LastWriterWins(imageList: seq<string>, scans: map<string, Document>, k: string, j: int)
    requires Scanned(imageList, scans) && LastWriter(imageList, scans, k, j)
    ensures k in ImagePackages(imageList, scans)
    ensures ImagePackages(imageList, scans)[k] == Written(imageList[j], scans[imageList[j]], k)
    decreases |imageList|
  {
    var n := |imageList| - 1;
    if j < n {
      var front := imageList[..n];
      assert !WritesKey(imageList[n], scans[imageList[n]], k);
      assert forall l :: 0 <= l < n ==> front[l] == imageList[l];
      LastWriterWins(front, scans, k, j);
    }
  }

  /**
   * The images' packages: a key is present exactly when some image writes
   * it, and it holds what the last image that writes it wrote.
   */
  lemma ImagePackagesLastWriter(imageList: seq<string>, scans: map<string, Document>, k: string)
    requires Scanned(imageList, scans)
    ensures k in ImagePackages(imageList, scans)
        <==> exists j :: 0 <= j < |imageList| && WritesKey(imageList[j], scans[imageList[j]], k)
    ensures forall j :: 0 <= j < |imageList| && WritesKey(imageList[j], scans[imageList[j]], k)
                && (forall l :: j < l < |imageList| ==> !WritesKey(imageList[l], scans[imageList[l]], k))
             ==> ImagePackages(imageList, scans)[k] == Written(imageList[j], scans[imageList[j]], k)
  {
    ImagePackagesKeys(imageList, scans, k);
    forall j | 0 <= j < |imageList| && WritesKey(imageList[j], scans[imageList[j]], k)
               && (forall l :: j < l < |imageList| ==> !WritesKey(imageList[l], scans[imageList[l]], k))
      ensures ImagePackages(imageList, scans)[k] == Written(imageList[j], scans[imageList[j]], k)
    {
      LastWriterWins(imageList, scans, k, j);
    }
  }

  /**
   * The CPE pseudo-packages are written last: every CPE name's entry holds
   * its pseudo-package, and the other entries are those of `base`.
   */
  lemma {:induction false} CpePackagesWin(base: map<string, Package>, cpes: seq<string>, k: string)
    requires CpesHaveFourFields(cpes)
    ensures forall j :: 0 <= j < |cpes| && k == "cpe-" + cpes[j]
              ==> k in WithCpePackages(base, cpes) && WithCpePackages(base, cpes)[k] == CpePackage(cpes[j])
    ensures (forall j :: 0 <= j < |cpes| ==> k != "cpe-" + cpes[j])
              ==> (k in WithCpePackages(base, cpes) <==> k in base)
                  && (k in base ==> WithCpePackages(base, cpes)[k] == base[k])
    decreases |cpes|
  {
    if cpes != [] {
      var n := |cpes| - 1;
      assert forall j :: 0 <= j < n ==> cpes[..n][j] == cpes[j];
      CpePackagesWin(base, cpes[..n], k);
      forall j | 0 <= j < |cpes| && k == "cpe-" + cpes[j]
        ensures WithCpePackages(base, cpes)[k] == CpePackage(cpes[j])
      {
        assert "cpe-" + cpes[j] == "cpe-" + cpes[n] ==> cpes[j] == cpes[n] by {
          if "cpe-" + cpes[j] == "cpe-" + cpes[n] {
            assert cpes[j] == ("cpe-" + cpes[j])[4..];
          }
        }
      }
    }
  }

  /**
   * The pseudo-package stored under "image-" and an image carries the
   * identifier "image-" and the scanned document's name, so key and
   * identifier agree exactly when the scan names the document after the
   * image; a later scan package or CPE name may replace it.
   */
  lemma ImageEntryIdentifier(imageList: seq<string>, scans: map<string, Document>, cpes: seq<string>, j: nat)
    requires Scanned(imageList, scans) && CpesHaveFourFields(cpes)
    requires j < |imageList|
    requires var k := "image-" + imageList[j];
      && k !in scans[imageList[j]].packages
      && (forall l :: j < l < |imageList| ==> !WritesKey(imageList[l], scans[imageList[l]], k))
      && (forall c :: 0 <= c < |cpes| ==> k != "cpe-" + cpes[c])
    ensures var k := "image-" + imageList[j];
      && k in ChartPackages(imageList, scans, cpes)
      && ChartPackages(imageList, scans, cpes)[k].spdxId == "image-" + scans[imageList[j]].creationInfo.documentName
      && (ChartPackages(imageList, scans, cpes)[k].spdxId == k
          <==> scans[imageList[j]].creationInfo.documentName == imageList[j])
  {
    var image := imageList[j];
    var k := "image-" + image;
    var name := scans[image].creationInfo.documentName;
    ImagePackagesLastWriter(imageList, scans, k);
    CpePackagesWin(ImagePackages(imageList, scans), cpes, k);
    if "image-" + name == k {
      assert name == ("image-" + name)[6..];
    }
  }

  /** A CPE name's entry holds its pseudo-package, whatever the images wrote. */
  lemma CpeEntry(imageList: seq<string>, scans: map<string, Document>, cpes: seq<string>, j: nat)
    requires Scanned(imageList, scans) && CpesHaveFourFields(cpes)
    requires j < |cpes|
    ensures "cpe-" + cpes[j] in ChartPackages(imageList, scans, cpes)
    ensures var p := ChartPackages(imageList, scans, cpes)["cpe-" + cpes[j]];
      && p.spdxId == "cpe-" + cpes[j]
      && p.name == Split(cpes[j], ':')[3]
      && p.externalRefs == [ExternalRef("", Cpe23ExternalRefType, cpes[j])]
  {
    CpePackagesWin(ImagePackages(imageList, scans), cpes, "cpe-" + cpes[j]);
  }

  /**
   * The dependency entry of the chart: one child per listed image, in list
   * order, each without a list of its own; so the chart depends on exactly
   * its images' keys and nothing deeper.
   */
  function ChartEntry(chartName: string, imageList: seq<string>): (e: Dependency)
    ensures e.ref == chartName && e.dependencies.List?
    ensures Refs(e.dependencies.entries) == seq(|imageList|, i requires 0 <= i < |imageList| => "image-" + imageList[i])
    ensures forall k :: k in e.dependencies.entries ==> k.dependencies == Nil
    ensures EdgesOf(e) == set i | 0 <= i < |imageList| :: (chartName, "image-" + imageList[i])
  {
    var kids := seq(|imageList|, i requires 0 <= i < |imageList| => Dependency("image-" + imageList[i], Nil));
    var e := Dependency(chartName, List(kids));
    assert forall k :: k in kids ==> EdgesOf(k) == {};
    assert (set k, x | k in kids && x in EdgesOf(k) :: x) == {};
    assert forall i :: 0 <= i < |kids| ==> (chartName, kids[i].ref) == (chartName, "image-" + imageList[i]);
    e
  }

  /** The entry for `image` lists exactly the identifiers of the image's packages, each once. */
  ghost predicate IsImageEntry(d: Dependency, image: string, scan: Document) {
    && d.ref == "image-" + image
    && d.dependencies.List?
    && Distinct(Refs(d.dependencies.entries))
    && (forall r :: r in Refs(d.dependencies.entries) <==> r in scan.packages)
    && (forall j :: 0 <= j < |d.dependencies.entries| ==> d.dependencies.entries[j].dependencies == Nil)
  }

  /**
   * The dependency list of a chart's CycloneDX form: the chart's entry
   * first, then one entry per scanned image, in the order the image map is
   * visited (`order`), each listing the image's packages in the order the
   * scan's package map is visited.
   */
  method ChartDependencies(chartName: string, imageList: seq<string>, imageMap: map<string, Document>)
    returns (deps: seq<Dependency>, ghost order: seq<string>)
    ensures |deps| == 1 + |order| && deps[0] == ChartEntry(chartName, imageList)
    ensures Distinct(order) && (forall i :: i in order <==> i in imageMap)
    ensures forall t :: 0 <= t < |order| ==> IsImageEntry(deps[1 + t], order[t], imageMap[order[t]])
  {
    var imagesInChart: seq<Dependency> := [];
    var n := 0;
    while n < |imageList|
      invariant 0 <= n <= |imageList|
      invariant imagesInChart == seq(n, i requires 0 <= i < n => Dependency("image-" + imageList[i], Nil))
    {
      imagesInChart := imagesInChart + [Dependency("image-" + imageList[n], Nil)];
      n := n + 1;
    }
    deps := [Dependency(chartName, List(imagesInChart))];
    order := [];
    var images := imageMap.Keys;
    while images != {}
      invariant images <= imageMap.Keys
      invariant |deps| == 1 + |order| && deps[0] == ChartEntry(chartName, imageList)
      invariant Distinct(order) && (forall i :: i in order <==> i in imageMap && i !in images)
      invariant forall t :: 0 <= t < |order| ==> IsImageEntry(deps[1 + t], order[t], imageMap[order[t]])
      decreases images
    {
      var image :| image in images;
      var doc := imageMap[image];
      var packageRefs: seq<Dependency> := [];
      var keys := doc.packages.Keys;
      while keys != {}
        invariant keys <= doc.packages.Keys
        invariant Distinct(Refs(packageRefs))
        invariant forall r :: r in Refs(packageRefs) <==> r in doc.packages && r !in keys
        invariant forall j :: 0 <= j < |packageRefs| ==> packageRefs[j].dependencies == Nil
        decreases keys
      {
        var k :| k in keys;
        assert Refs(packageRefs + [Dependency(k, Nil)]) == Refs(packageRefs) + [k];
        packageRefs := packageRefs + [Dependency(k, Nil)];
        keys := keys - {k};
      }
      deps := deps + [Dependency("image-" + image, List(packageRefs))];
      order := order + [image];
      images := images - {image};
    }
  }

  /** The chart's own component in the metadata: its name doubles as its bom-ref. */
  function ChartComponent(chart: Chart): (c: Component)
    ensures c.bomRef == c.name == chart.name && c.version == chart.version
    ensures c.kind == "" && c.cpe == "" && c.purl == ""
  {
    Component(chart.name, "", chart.name, chart.version, "", "")
  }

  /**
   * `create` up to the SPDX document: the chart's images and CPE names are
   * read, and its document holds the chart's packages; `imageMap` maps each
   * listed image to its scan.
   */
  method ChartDocument(chart: Chart, scans: map<string, Document>, created: string)
    returns (doc: Document, imageMap: map<string, Document>)
    requires Scanned(ChartImages(chart), scans) && CpesHaveFourFields(ChartCpes(chart))
    ensures doc == Document(ChartCreationInfo(chart.name, created),
                            ChartPackages(ChartImages(chart), scans, ChartCpes(chart)))
    ensures forall i :: i in imageMap <==> i in ChartImages(chart)
    ensures forall i :: i in imageMap ==> i in scans && imageMap[i] == scans[i]
  {
    var imageList := Images(chart);
    var cpes := CPEs(chart);
    var packages;
    packages, imageMap := BuildChartPackages(imageList, scans, cpes);
    doc := Document(ChartCreationInfo(chart.name, created), packages);
  }

  /**
   * `create` with CycloneDX output: the chart's images are scanned
   * (`scans` holds each scan), its SPDX document is composed and translated,
   * the chart becomes the subject, and the dependency list is the chart's
   * entry followed by one entry per image. `pkgOrder` and `imageOrder` are
   * the orders in which the package map and the image map were visited.
   */
  method ChartCycloneDX(chart: Chart, scans: map<string, Document>, created: string)
    returns (bom: Bom, ghost pkgOrder: seq<string>, ghost imageOrder: seq<string>)
    requires Scanned(ChartImages(chart), scans) && CpesHaveFourFields(ChartCpes(chart))
    ensures bom.metadata == Some(Metadata(created, Some(ChartComponent(chart))))
    ensures var packages := ChartPackages(ChartImages(chart), scans, ChartCpes(chart));
      && Distinct(pkgOrder) && (forall k :: k in pkgOrder <==> k in packages)
      && bom.components.Some? && |bom.components.value| == |pkgOrder| == |packages|
      && (forall i :: 0 <= i < |pkgOrder| ==> bom.components.value[i] == ComponentOf(packages[pkgOrder[i]]))
    ensures bom.components.Some? && forall i :: 0 <= i < |bom.components.value| ==> bom.components.value[i].bomRef == ""
    ensures bom.dependencies.List? && |bom.dependencies.entries| == 1 + |imageOrder|
    ensures bom.dependencies.entries[0] == ChartEntry(chart.name, ChartImages(chart))
    ensures Distinct(imageOrder) && (forall i :: i in imageOrder <==> i in ChartImages(chart))
    ensures forall t :: 0 <= t < |imageOrder| ==>
              imageOrder[t] in scans && IsImageEntry(bom.dependencies.entries[1 + t], imageOrder[t], scans[imageOrder[t]])
  {
    var doc, imageMap := ChartDocument(chart, scans, created);
    var imageList := Images(chart);
    var translated;
    translated, pkgOrder := ToCycloneDX(doc);
    var deps;
    deps, imageOrder := ChartDependencies(chart.name, imageList, imageMap);
    ImageEntriesAgree(deps, imageOrder, imageMap, scans);
    bom := translated.(metadata := Some(Metadata(created, Some(ChartComponent(chart)))),
                       dependencies := List(deps));
  }

  /** The image entries read the same against two maps that agree on the visited images. */
  lemma ImageEntriesAgree(deps: seq<Dependency>, order: seq<string>, imageMap: map<string, Document>, scans: map<string, Document>)
    requires |deps| == 1 + |order|
    requires forall i :: i in order ==> i in imageMap && i in scans && imageMap[i] == scans[i]
    requires forall t :: 0 <= t < |order| ==> IsImageEntry(deps[1 + t], order[t], imageMap[order[t]])
    ensures forall t :: 0 <= t < |order| ==> order[t] in scans && IsImageEntry(deps[1 + t], order[t], scans[order[t]])
  {
    forall t | 0 <= t < |order|
      ensures IsImageEntry(deps[1 + t], order[t], scans[order[t]])
    {
      assert order[t] in order;
    }
  }
}
