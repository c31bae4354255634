/**
 * The part of an SPDX 2.2 document the tool reads and writes: the
 * creation-information section (section 2) and the packages (section 3),
 * keyed by their SPDX identifier.
 */
module Spdx {

  /** Reference types of SPDX 2.2 section 3.21, as the image scanner writes them. */
  const Cpe22ExternalRefType := "cpe22Type"
  const Cpe23ExternalRefType := "cpe23Type"
  const PurlExternalRefType := "purl"

  const NoAssertion := "NOASSERTION"

  datatype ExternalRef = ExternalRef(category: string, refType: string, locator: string)

  /** The SPDX 2.2 section 3 fields of a package that the tool sets or reads. */
  datatype Package = Package(
    name: string,                       // 3.1
    spdxId: string,                     // 3.2
    version: string,                    // 3.3
    fileName: string,                   // 3.4
    supplierPerson: string,             // 3.5
    supplierOrganization: string,
    supplierNoAssertion: bool,
    originatorPerson: string,           // 3.6
    originatorOrganization: string,
    originatorNoAssertion: bool,
    downloadLocation: string,           // 3.7
    filesAnalyzed: bool,                // 3.8
    isFilesAnalyzedTagPresent: bool,
    verificationCode: string,           // 3.9
    homePage: string,                   // 3.11
    sourceInfo: string,                 // 3.12
    licenseConcluded: string,           // 3.13
    licenseDeclared: string,            // 3.15
    licenseComments: string,            // 3.16
    copyrightText: string,              // 3.17
    summary: string,                    // 3.18
    description: string,                // 3.19
    comment: string,                    // 3.20
    externalRefs: seq<ExternalRef>)     // 3.21

  /** The Go zero value of a package. */
  const ZeroPackage := Package("", "", "", "", "", "", false, "", "", false, "", false, false,
                               "", "", "", "", "", "", "", "", "", "", [])

  datatype CreationInfo = CreationInfo(
    spdxVersion: string,                // 2.1
    dataLicense: string,                // 2.2
    spdxIdentifier: string,             // 2.3
    documentName: string,               // 2.4
    documentNamespace: string,          // 2.5
    creatorOrganizations: seq<string>,  // 2.8
    creatorTools: seq<string>,
    created: string)                    // 2.9

  datatype Document = Document(creationInfo: CreationInfo, packages: map<string, Package>)
}
