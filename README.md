# sbom-cli: composing and translating bills of materials

This project models the core of `sbom-cli`, a command-line tool that builds
software bills of materials (SBOMs) for Helm charts and combines them. The
model covers:

- **Reading a chart's annotations** (`pkg/helm/helm.go`). The
  `bigbang.dev/images` annotation lists container images and
  `bigbang.dev/cpe` lists CPE names. Both have one record per line and
  colon-separated fields.
- **Building the chart's SPDX 2.2 document** (`cmd/create.go`). Each image
  gets a pseudo-package keyed "image-" + image. Next come the packages the
  image scanner found in that image's scan. Each CPE name then gets a
  pseudo-package keyed "cpe-" + name. Later writes replace earlier ones.
  In the CycloneDX form of that document, the chart becomes the subject,
  and a dependency list says that the chart depends on its images and each
  image on its packages.
- **Translating SPDX to CycloneDX** (`pkg/sbom/spdx.go`). Each package
  becomes a component. The document's name becomes the subject, and no
  dependencies are set.
- **Merging CycloneDX documents** (`pkg/sbom/cyclonedx.go`). The
  components of several documents are concatenated, dropping any component
  whose package URL or CPE is already present.
- **Grafting one CycloneDX document under another**
  (`cmd/addAsDependency.go`).

Go's strings library functions are modelled as recursive functions with
their properties proved in `GoStrings`. These are `strings.Split`,
`strings.Join`, `strings.Contains`, `strings.Trim` with one cut character,
and `bufio.Scanner` line splitting.

A Go nil pointer is `None`, or `Nil` for a dependency list. A dereference
that would panic becomes a precondition.

A Go map walk visits keys in an unspecified order. It is modelled as a loop
that picks any remaining key, and the contracts hold for every such order.
Where the order shows in the result, a ghost out-parameter returns it.

The scanner (`syft.Scan`) and the clock are inputs. The scan results
arrive as a map from image to document, and the creation time as a string.

The model follows the code as written:

- The image pseudo-package's version is the field between the first and
  second colon of the image, not everything after the first colon.
- Nothing is sorted. Components come out in map order.
- A package is typed "application" when its identifier contains "cpe-".
  Otherwise it is "container", including when the identifier contains
  "-image-".

One consequence of the code shows up in `Create.ChartCycloneDX`. No
translated component carries a bom-ref. So the "image-…" refs and the
package refs in the composed dependency list name no component. Only the
chart's own entry names one: the subject in the metadata.

## Model

| member | source | states |
|---|---|---|
| GoStrings.Split | pkg/helm/helm.go:35 | `strings.Split` on one separator: n separators give n+1 fields |
| GoStrings.JoinSplit | pkg/helm/helm.go:35-40 | joining the split fields with the separator gives back the string |
| GoStrings.SplitJoin | pkg/helm/helm.go:40 | splitting a join of separator-free fields gives back the fields |
| GoStrings.SplitFieldsHaveNoSeparator | pkg/helm/helm.go:35 | no split field contains the separator |
| GoStrings.SplitAtFirstSeparator | pkg/helm/helm.go:35 | a separator-free head is the first field, and the rest splits on its own |
| GoStrings.SplitFirstTwoFields | pkg/sbom/spdx.go:110 | the first two fields and a separator begin the string; they are all of it exactly when there are two fields, and otherwise a separator follows them |
| GoStrings.SplitLastField | pkg/helm/helm.go:33-35 | the last field is empty exactly when the string ends with the separator |
| GoStrings.Join | pkg/helm/helm.go:40 | `strings.Join`: the first part begins the result, and with two or more parts a separator follows it |
| GoStrings.Contains | pkg/helm/helm.go:39 | `strings.Contains`: a string never contains a longer one, and always contains its own prefixes (so "" is in every string) |
| GoStrings.Trim | pkg/helm/helm.go:58 | `strings.Trim` with one cut character: no longer than the input, and neither starts nor ends with the cut character |
| GoStrings.ContainsIffOccurs | pkg/helm/helm.go:39 | `strings.Contains` holds exactly when the substring occurs at some position |
| GoStrings.TrimLeftIsSuffix | pkg/helm/helm.go:58 | the left trim drops a run of the cut character and keeps the rest unchanged |
| GoStrings.TrimRightIsPrefix | pkg/helm/helm.go:58 | the right trim drops a trailing run of the cut character and keeps the rest unchanged |
| GoStrings.TrimIsMiddle | pkg/helm/helm.go:58 | the trim is a middle slice with only cut characters around it, and it neither starts nor ends with one |
| GoStrings.Lines | pkg/helm/helm.go:33-34 | line i is the i-th newline-separated field with a trailing carriage return dropped; "" has no lines; a non-empty text has one line per newline, plus one when it does not end in a newline |
| Helm.CpeOfLine | pkg/helm/helm.go:35-41 | a kept record, after the first field and a colon, gives back the whole line |
| Helm.ImageOfLine | pkg/helm/helm.go:53-59 | a kept record comes from a line of at least three fields, and splits into exactly the trimmed second field and the third |
| Helm.CPEs | pkg/helm/helm.go:29-45 | the loop collects exactly the records of the CPE annotation's lines, and a missing annotation gives none |
| Helm.Images | pkg/helm/helm.go:47-64 | the loop collects exactly the records of the image annotation's lines, and a missing annotation gives none |
| Helm.CpeOfLineSpec | pkg/helm/helm.go:35-41 | a line is kept iff it has at least three fields and the first contains "cpe"; the record is everything after the first colon, field for field |
| Helm.ImageOfLineSpec | pkg/helm/helm.go:53-59 | a line is kept iff it has at least three fields and the first contains "image"; the record has exactly two fields, the trimmed second field and the third |
| Helm.CpeLine | pkg/helm/helm.go:35-41 | `marker:rest` with a "cpe" marker and a colon in `rest` yields `rest` |
| Helm.CpeLineExample | pkg/helm/helm.go:35-41 | "cpe:2.3:a:vendor:product:1.0" yields "2.3:a:vendor:product:1.0" |
| Helm.ImageLine | pkg/helm/helm.go:53-59 | `marker: name:tail` yields the trimmed name and the first field of `tail` |
| Helm.ImageLineExample | pkg/helm/helm.go:53-59 | "image: nginx:1.21" yields "nginx:1.21" |
| Helm.ImageLineWithRegistryPort | pkg/helm/helm.go:53-59 | a registry port takes the tag's field: "image: registry.local:5000/nginx:1.21" yields "registry.local:5000/nginx" |
| Helm.CollectLength | pkg/helm/helm.go:34-43 | there are no more records than lines |
| Helm.CollectInLineOrder | pkg/helm/helm.go:34-43 | the records come from strictly increasing lines, and every line holding a record contributes it |
| SbomCycloneDx.SameIdentity | pkg/sbom/cyclonedx.go:72-78 | two components share an identity iff they have a common non-empty package URL or a common non-empty CPE; only a component with one of them can share one |
| SbomCycloneDx.Present | pkg/sbom/cyclonedx.go:69-82 | found iff some current component shares a non-empty package URL or a non-empty CPE with the new one; a component with neither is never found |
| SbomCycloneDx.NoIdentityWithoutIds | pkg/sbom/cyclonedx.go:72-78 | a component with empty package URL and CPE shares no identity in either direction |
| SbomCycloneDx.MergeCycloneDX | pkg/sbom/cyclonedx.go:40-67 | never fails; components are the deduplicated concatenation of the inputs' components; the subject is named `name`; there are no dependencies |
| SbomCycloneDx.Dedup | pkg/sbom/cyclonedx.go:52-59 | the merged list is no longer than the input |
| SbomCycloneDx.DedupPrefix | pkg/sbom/cyclonedx.go:52-59 | merging a prefix of the input gives a prefix of the result |
| SbomCycloneDx.DedupHasNoSharedIdentity | pkg/sbom/cyclonedx.go:52-59 | no two merged components share an identity |
| SbomCycloneDx.DedupIsSubsequence | pkg/sbom/cyclonedx.go:52-59 | the merged components are input components in their input order |
| SbomCycloneDx.DedupCoversInputs | pkg/sbom/cyclonedx.go:52-59 | every input component is kept or has its identity present in the result |
| SbomCycloneDx.DedupKeepsDistinct | pkg/sbom/cyclonedx.go:52-59 | inputs that share no identity are merged unchanged |
| SbomCycloneDx.DedupKeepsAllIff | pkg/sbom/cyclonedx.go:52-59 | nothing is dropped iff no two inputs share an identity |
| SbomCycloneDx.FlattenLength | pkg/sbom/cyclonedx.go:52-53 | the concatenated components number the sum of the inputs' counts |
| SbomCycloneDx.MergeSize | pkg/sbom/cyclonedx.go:40-67 | the merge has at most as many components as all inputs together, and exactly as many iff no two share an identity |
| SbomSpdx.ImageToPackage | pkg/sbom/spdx.go:109-259 | the image pseudo-package is identified by "image-" + image; its download location, concluded and declared licenses and copyright text are "NOASSERTION"; it says its files were not analyzed, with the files-analyzed tag present |
| SbomSpdx.ImagePackageNameVersion | pkg/sbom/spdx.go:110-129 | name and version are colon-free and begin the image as "name:version"; they are all of it iff the image has one colon, and otherwise the second colon follows the version |
| SbomSpdx.ComponentTypeFor | pkg/sbom/spdx.go:291-304 | the type is "application" iff the identifier contains "cpe-", and "container" otherwise, whether or not it contains "-image-" |
| SbomSpdx.LastLocator | pkg/sbom/spdx.go:308-319 | the locator is that of the last reference of the wanted types, or "" when none has one |
| SbomSpdx.LastLocatorAppend | pkg/sbom/spdx.go:308-319 | later references of the kind override earlier ones, and references of other kinds change nothing |
| SbomSpdx.SPDXPackageToCycloneComponent | pkg/sbom/spdx.go:284-321 | name and version are copied and no bom-ref is set; the type is "application" iff the identifier contains "cpe-", else "container"; the CPE and package URL are the last of their kind |
| SbomSpdx.ToCycloneDX | pkg/sbom/spdx.go:261-282 | the timestamp is the creation time; the subject is named after the document; one component per package in map order; no dependencies |
| AddAsDependency.Attach | cmd/addAsDependency.go:48-87 | components are the root's (none if nil), the leaf's subject, then the leaf's; each root entry for the root's subject gains the leaf's subject; one entry for the leaf's subject carries the leaf's dependencies; the metadata is unchanged |
| AddAsDependency.Graft | cmd/addAsDependency.go:67-78 | the entry for the root's subject gains the leaf's subject as a last child (a nil list becomes a one-child list); its existing children stay in front; other entries are unchanged |
| AddAsDependency.GraftKeepsEdges | cmd/addAsDependency.go:65-80 | grafting an entry keeps every dependency edge it had |
| AddAsDependency.AttachedEdges | cmd/addAsDependency.go:62-87 | all of the root's and the leaf's edges survive, and the leaf's subject depends on each of the leaf's top entries |
| AddAsDependency.AttachedRootEdge | cmd/addAsDependency.go:65-80 | when the root lists its subject, the root's subject depends on the leaf's subject |
| AddAsDependency.AttachedWithoutRootEntry | cmd/addAsDependency.go:65-87 | when no entry names the root's subject, the leaf's entry is only appended, and the edges are the root's plus those of the leaf's entry |
| AddAsDependency.AttachedReachesLeafGraph | cmd/addAsDependency.go:62-87 | when the root lists an entry for its subject, every leaf-graph path from the leaf's subject extends to a path from the root's subject; with no such entry the graft adds no root edge (see AttachedWithoutRootEntry) |
| Create.ChartCreationInfo | cmd/create.go:54-117 | the document is named after the chart and stamped with the creation time |
| Create.CpePackage | cmd/create.go:138-148 | the CPE pseudo-package is identified by "cpe-" + name, named after the fourth field, and has the name as its one CPE 2.3 reference |
| Create.BuildChartPackages | cmd/create.go:120-149 | the package map is the images' packages with the CPE pseudo-packages written over them; the image map holds exactly the listed images and their scans |
| Create.AddImages | cmd/create.go:120-134 | images in list order write their pseudo-package and then their scan's packages |
| Create.CopyPackages | cmd/create.go:131-133 | copying a scan's packages gives the map updated by the scan's map |
| Create.AddCpes | cmd/create.go:137-149 | CPE names in order write their pseudo-packages |
| Create.ImagePackagesLastWriter | cmd/create.go:120-134 | a key is present iff some image writes it; it holds what the last image writing it wrote, where the scan's package replaces the image's own pseudo-package |
| Create.ImagePackagesKeys | cmd/create.go:120-134 | a key is in the images' packages iff some image writes it, as its own key or as one of its scan's package identifiers |
| Create.LastWriterWins | cmd/create.go:120-134 | the last image that writes a key decides its entry, where the scan's package replaces the image's own pseudo-package |
| Create.CpePackagesWin | cmd/create.go:137-149 | a CPE name's key holds its pseudo-package; other keys are as the images left them |
| Create.ImageEntryIdentifier | cmd/create.go:128 | an image's pseudo-package, if not overwritten, is identified by "image-" + the scanned document's name, which matches its key iff the scan names the document after the image |
| Create.CpeEntry | cmd/create.go:144-148 | whatever the images wrote, a CPE name's entry is its pseudo-package |
| Create.ChartEntry | cmd/create.go:171-181 | the chart's entry lists "image-" + image for each image in list order, each without a list of its own, so the chart's edges go to exactly its images' keys |
| Create.ChartDependencies | cmd/create.go:171-203 | the chart's entry lists "image-" + image for each image in list order; then one entry per scanned image, each listing exactly its scan's package identifiers once |
| Create.ChartComponent | cmd/create.go:160-165 | the chart's subject has the chart's name as name and bom-ref, and the chart's version |
| Create.ChartDocument | cmd/create.go:52-149 | the chart's SPDX document holds exactly the chart's packages; the image map holds each listed image's scan |
| Create.ChartCycloneDX | cmd/create.go:52-203 | the CycloneDX form has the chart as subject, one component per chart package, no component bom-ref, the chart's entry first, and one entry per image |

## Left out

- Reading and writing files (`ReadSPDX`, `WriteSPDX`, `ReadCycloneDX`, `WriteCycloneDX`), the JSON and XML codecs, and printing to stdout are I/O. Documents are values here.
- `helm.Read` loads a chart from disk, which is I/O. A chart is its name, version and annotations. `Read` swallows load errors, and that is not modelled.
- `syft.Scan` runs the image scanner, which is a foreign call. Its results are the `scans` input, and a failed scan (which panics) is outside the model.
- The time comes from `time.Now`, a clock. It is the `created` parameter.
- `cmd/combine.go` is not part of this model. It only reads files and calls `MergeCycloneDX`.
- Command-line flag handling, `cobra` wiring and the SPDX or stdout output branches of `create` are left out. They are I/O around the modelled composition.
- The CycloneDX header fields that `NewBOM` and `ToCycloneDX` set (format, spec version, XML namespace, serial number) are left out. They do not depend on the input.
- Component and package fields that no modelled operation reads or writes are left out.
- Slices and maps are values here. Go's aliasing of `rootDeps` with the root document's backing array is not modelled. Only the final result of `Attach` is stated.
- GoStrings.Lines: does not model `bufio.Scanner`'s 64 KiB token limit, past which the real scanner stops early.
- GoStrings.Split: the separator is one character, which is all the tool uses.
- SbomSpdx.ImageToPackage: requires a colon in the image. Without one, `parts[1]` panics.
- Create.CpePackage: requires four colon-separated fields. Without them, `parts[3]` panics.
- SbomCycloneDx.MergeCycloneDX: requires every input to have a component list. A nil list panics on dereference.
- AddAsDependency.Attach: requires what its dereferences need. The leaf's subject and component list must be present. The root's dependency list must be present. The root's subject must be present once the root lists any entry.
- A nil `CreationInfo` and nil package pointers are not representable. Every document has creation information and every package is present.
- Create.ChartCycloneDX: requires a scan for every listed image whose document name contains a colon, and four fields in every CPE name. Otherwise the source panics.
