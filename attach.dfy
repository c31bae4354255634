/**
 * Hanging one CycloneDX document beneath another's subject
 * (`addAsDependency`, cmd/addAsDependency.go): the leaf's subject and
 * components join the root's components, the root's own dependency entry
 * gains the leaf's subject as a child, and the leaf's dependency list is
 * carried over under a new entry for the leaf's subject.
 */
module AddAsDependency {
  import opened Options
  import opened CycloneDx

  /** The bom-ref of a document's subject, "" when it has none. */
  function SubjectRef(bom: Bom): string {
    if bom.metadata.Some? && bom.metadata.value.component.Some?
    then bom.metadata.value.component.value.bomRef
    else ""
  }

  /**
   * An entry for `rootRef` gains a child entry for `leafRef` at the end of
   * its list (a nil list becomes a list of that one child); any other entry
   * is left as it is. Nothing is removed or reordered.
   */
  function Graft(d: Dependency, rootRef: string, leafRef: string): (g: Dependency)
    ensures g.ref == d.ref
    ensures d.dependencies.Entries() <= g.dependencies.Entries()
    ensures d.ref == rootRef ==> g.dependencies.Entries() == d.dependencies.Entries() + [Dependency(leafRef, Nil)]
    ensures d.ref != rootRef ==> g == d
  {
    if d.ref == rootRef
    then d.(dependencies := List(d.dependencies.Entries() + [Dependency(leafRef, Nil)]))
    else d
  }

  /** The dependency list the attach produces. */
  function AttachedDependencies(rootDeps: seq<Dependency>, rootRef: string,
                                leafRef: string, leafDeps: DependencyList): seq<Dependency>
  {
    seq(|rootDeps|, i requires 0 <= i < |rootDeps| => Graft(rootDeps[i], rootRef, leafRef))
    + [Dependency(leafRef, leafDeps)]
  }

  /**
   * What the leaf and root must provide: the code dereferences the leaf's
   * subject, the leaf's component list and the root's dependency list
   * always, and the root's subject whenever the root lists a dependency.
   */
  predicate Attachable(root: Bom, leaf: Bom) {
    && leaf.metadata.Some? && leaf.metadata.value.component.Some?
    && leaf.components.Some?
    && root.dependencies.List?
    && (root.dependencies.entries != [] ==>
          root.metadata.Some? && root.metadata.value.component.Some?)
  }

  /**
   * The attach: the root's components (none if nil), then the leaf's
   * subject, then the leaf's components, nothing deduplicated; the root's
   * dependency entries, every one for the root's subject extended by a
   * child for the leaf's subject; and one more entry, for the leaf's
   * subject, carrying the leaf's dependency list as it is.
   */
  method Attach(root: Bom, leaf: Bom) returns (result: Bom)
    requires Attachable(root, leaf)
    ensures var leafSubject := leaf.metadata.value.component.value;
      && result.metadata == root.metadata
      && result.components == Some(root.components.GetOr([]) + [leafSubject] + leaf.components.value)
      && result.dependencies
         == List(AttachedDependencies(root.dependencies.entries, SubjectRef(root),
                                      leafSubject.bomRef, leaf.dependencies))
    ensures |result.components.value| == |root.components.GetOr([])| + 1 + |leaf.components.value|
    ensures |result.dependencies.entries| == |root.dependencies.entries| + 1
  {
    var comp: seq<Component>;
    if root.components.None? {
      comp := [];
    } else {
      comp := root.components.value;
    }
    var leafSubject := leaf.metadata.value.component.value;
    comp := comp + [leafSubject];
    var leafComponents := leaf.components.value;
    var k := 0;
    while k < |leafComponents|
      invariant 0 <= k <= |leafComponents|
      invariant comp == root.components.GetOr([]) + [leafSubject] + leafComponents[..k]
    {
      comp := comp + [leafComponents[k]];
      k := k + 1;
    }
    assert leafComponents[..k] == leafComponents;

    var rootDeps := root.dependencies.entries;
    var i := 0;
    while i < |rootDeps|
      invariant 0 <= i <= |rootDeps| == |root.dependencies.entries|
      invariant forall j :: 0 <= j < i ==>
        rootDeps[j] == Graft(root.dependencies.entries[j], SubjectRef(root), leafSubject.bomRef)
      invariant forall j :: i <= j < |rootDeps| ==> rootDeps[j] == root.dependencies.entries[j]
    {
      var dep := rootDeps[i];
      if dep.ref == root.metadata.value.component.value.bomRef {
        var tmp: seq<Dependency>;
        if dep.dependencies.Nil? {
          tmp := [];
        } else {
          tmp := dep.dependencies.entries;
        }
        tmp := tmp + [Dependency(leafSubject.bomRef, Nil)];
        rootDeps := rootDeps[i := dep.(dependencies := List(tmp))];
      }
      i := i + 1;
    }
    rootDeps := rootDeps + [Dependency(leafSubject.bomRef, leaf.dependencies)];
    result := root.(components := Some(comp), dependencies := List(rootDeps));
  }

  /** Grafting keeps every edge an entry had. */
  lemma GraftKeepsEdges(d: Dependency, rootRef: string, leafRef: string)
    ensures EdgesOf(d) <= EdgesOf(Graft(d, rootRef, leafRef))
  {
    if d.ref == rootRef && d.dependencies.List? {
      var kids := d.dependencies.entries;
      var kids' := kids + [Dependency(leafRef, Nil)];
      forall e | e in EdgesOf(d) ensures e in EdgesOf(Graft(d, rootRef, leafRef)) {
        if e in (set i | 0 <= i < |kids| :: (d.ref, kids[i].ref)) {
          var i :| 0 <= i < |kids| && e == (d.ref, kids[i].ref);
          assert kids'[i] == kids[i];
        } else {
          var k :| k in kids && e in EdgesOf(k);
          assert k in kids';
        }
      }
    }
  }

  /**
   * The edges of the attached list: the root's edges stay, the leaf's
   * dependency graph is carried over whole, and the leaf's subject points
   * at every entry of the leaf's list.
   */
  lemma AttachedEdges(rootDeps: seq<Dependency>, rootRef: string, leafRef: string, leafDeps: DependencyList)
    ensures var e := Edges(AttachedDependencies(rootDeps, rootRef, leafRef, leafDeps));
      && Edges(rootDeps) <= e
      && Edges(leafDeps.Entries()) <= e
      && forall j :: 0 <= j < |leafDeps.Entries()| ==> (leafRef, leafDeps.Entries()[j].ref) in e
  {
    var result := AttachedDependencies(rootDeps, rootRef, leafRef, leafDeps);
    var last := Dependency(leafRef, leafDeps);
    assert last == result[|result| - 1];
    forall x | x in Edges(rootDeps) ensures x in Edges(result) {
      var d :| d in rootDeps && x in EdgesOf(d);
      var i :| 0 <= i < |rootDeps| && rootDeps[i] == d;
      GraftKeepsEdges(d, rootRef, leafRef);
      assert result[i] == Graft(d, rootRef, leafRef);
    }
    assert EdgesOf(last) <= Edges(result);
    if leafDeps.List? {
      var kids := leafDeps.entries;
      forall j | 0 <= j < |kids| ensures (leafRef, kids[j].ref) in Edges(result) {
        assert (leafRef, kids[j].ref) in EdgesOf(last);
      }
    }
  }

  /** The root's subject points at the leaf's subject when the root lists an entry for it. */
  lemma AttachedRootEdge(rootDeps: seq<Dependency>, rootRef: string, leafRef: string, leafDeps: DependencyList)
    requires exists i :: 0 <= i < |rootDeps| && rootDeps[i].ref == rootRef
    ensures (rootRef, leafRef) in Edges(AttachedDependencies(rootDeps, rootRef, leafRef, leafDeps))
  {
    var i :| 0 <= i < |rootDeps| && rootDeps[i].ref == rootRef;
    var result := AttachedDependencies(rootDeps, rootRef, leafRef, leafDeps);
    var g := result[i];
    var kids := rootDeps[i].dependencies.Entries() + [Dependency(leafRef, Nil)];
    assert g.dependencies == List(kids);
    assert kids[|kids| - 1].ref == leafRef;
    assert (rootRef, leafRef) in EdgesOf(g);
  }

  /**
   * When the root lists no entry for its subject, no entry of the root's
   * changes, and the only new edges are those of the leaf's new entry.
   */
  lemma AttachedWithoutRootEntry(rootDeps: seq<Dependency>, rootRef: string, leafRef: string, leafDeps: DependencyList)
    requires forall i :: 0 <= i < |rootDeps| ==> rootDeps[i].ref != rootRef
    ensures AttachedDependencies(rootDeps, rootRef, leafRef, leafDeps) == rootDeps + [Dependency(leafRef, leafDeps)]
    ensures Edges(AttachedDependencies(rootDeps, rootRef, leafRef, leafDeps))
         == Edges(rootDeps) + EdgesOf(Dependency(leafRef, leafDeps))
  {
    var result := AttachedDependencies(rootDeps, rootRef, leafRef, leafDeps);
    assert result == rootDeps + [Dependency(leafRef, leafDeps)];
    forall x | x in Edges(result) ensures x in Edges(rootDeps) + EdgesOf(Dependency(leafRef, leafDeps)) {
      var d :| d in result && x in EdgesOf(d);
      if d != Dependency(leafRef, leafDeps) {
        assert d in rootDeps;
      }
    }
    forall x | x in Edges(rootDeps) ensures x in Edges(result) {
      var d :| d in rootDeps && x in EdgesOf(d);
      assert d in result;
    }
  }

  /**
   * Everything reachable from the leaf's subject in the leaf's graph is
   * reachable from the root's subject after the attach, provided the root
   * lists an entry for its subject.
   */
  lemma AttachedReachesLeafGraph(rootDeps: seq<Dependency>, rootRef: string, leafRef: string,
                                 leafDeps: DependencyList, path: seq<string>)
    requires exists i :: 0 <= i < |rootDeps| && rootDeps[i].ref == rootRef
    requires IsPath(Edges(leafDeps.Entries()), path) && path[0] == leafRef
    ensures IsPath(Edges(AttachedDependencies(rootDeps, rootRef, leafRef, leafDeps)), [rootRef] + path)
  {
    var e := Edges(AttachedDependencies(rootDeps, rootRef, leafRef, leafDeps));
    AttachedEdges(rootDeps, rootRef, leafRef, leafDeps);
    AttachedRootEdge(rootDeps, rootRef, leafRef, leafDeps);
    var p := [rootRef] + path;
    forall i | 0 <= i < |p| - 1 ensures (p[i], p[i + 1]) in e {
      if i > 0 {
        assert (path[i - 1], path[i]) in Edges(leafDeps.Entries());
      }
    }
  }
}
