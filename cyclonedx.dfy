/**
 * The part of a CycloneDX document the tool reads and writes: components,
 * the nested dependency forest, and the metadata that names the document's
 * own subject. A nil pointer of the Go structures is `None`.
 */
module CycloneDx {
  import opened Options

  const ComponentTypeContainer := "container"
  const ComponentTypeApplication := "application"

  datatype Component = Component(
    bomRef: string,
    kind: string,       // the component's `type`
    name: string,
    version: string,
    cpe: string,
    purl: string)

  /** The Go zero value of a component with only its name set. */
  function NamedComponent(name: string): Component {
    Component("", "", name, "", "", "")
  }

  /**
   * A dependency entry: `ref` depends on every entry listed beneath it,
   * and each of those may carry its own nested list.
   */
  datatype Dependency = Dependency(ref: string, dependencies: DependencyList)

  /** A Go `*[]Dependency`: a nil pointer, or a (possibly empty) list. */
  datatype DependencyList = Nil | List(entries: seq<Dependency>) {
    /** The listed entries; nil lists none. */
    function Entries(): seq<Dependency> {
      match this
      case Nil => []
      case List(es) => es
    }
  }

  datatype Metadata = Metadata(timestamp: string, component: Option<Component>)

  datatype Bom = Bom(
    metadata: Option<Metadata>,
    components: Option<seq<Component>>,
    dependencies: DependencyList)

  /** The refs of a list of entries, in order. */
  function Refs(ds: seq<Dependency>): (refs: seq<string>)
    ensures |refs| == |ds|
    ensures forall i :: 0 <= i < |ds| ==> refs[i] == ds[i].ref
  {
    seq(|ds|, i requires 0 <= i < |ds| => ds[i].ref)
  }

  /**
   * The dependency graph a forest of entries denotes: an edge from each
   * entry's ref to the ref of every entry listed beneath it, at any depth.
   */
  function EdgesOf(d: Dependency): set<(string, string)> {
    match d.dependencies
    case Nil => {}
    case List(kids) =>
      (set i | 0 <= i < |kids| :: (d.ref, kids[i].ref))
      + (set k, e | k in kids && e in EdgesOf(k) :: e)
  }

  function Edges(ds: seq<Dependency>): set<(string, string)> {
    set d, e | d in ds && e in EdgesOf(d) :: e
  }

  /** `p` walks along edges of `e`. */
  ghost predicate IsPath(e: set<(string, string)>, p: seq<string>) {
    |p| >= 1 && forall i :: 0 <= i < |p| - 1 ==> (p[i], p[i + 1]) in e
  }
}
