/**
 * Merging several CycloneDX documents into one whose components are the
 * first-seen union of theirs, identity being decided by package URL or
 * CPE alone (pkg/sbom/cyclonedx.go).
 */
module SbomCycloneDx {
  import opened Options
  import opened CycloneDx

  /**
   * Two components denote the same artifact when they carry the same
   * non-empty package URL or the same non-empty CPE; names and versions
   * play no part. So a shared identity is a common non-empty package URL
   * or CPE, and only a component with one of them can share an identity.
   */
  predicate SameIdentity(a: Component, b: Component)
    ensures SameIdentity(a, b) <==> (a.purl != "" && a.purl == b.purl) || (a.cpe != "" && a.cpe == b.cpe)
    ensures SameIdentity(a, b) ==> (a.purl != "" || a.cpe != "") && (b.purl != "" || b.cpe != "")
  {
    || (a.purl != "" && b.purl != "" && a.purl == b.purl)
    || (a.cpe != "" && b.cpe != "" && a.cpe == b.cpe)
  }

  /** Some component of `current` has the identity of `x`. */
  predicate IsPresent(current: seq<Component>, x: Component) {
    exists i :: 0 <= i < |current| && SameIdentity(current[i], x)
  }

  /** `present`: a scan of `current` that stops at the first identity match. */
  method Present(current: seq<Component>, x: Component) returns (found: bool)
    ensures found <==> IsPresent(current, x)
    ensures x.purl == "" && x.cpe == "" ==> !found
  {
    var i := 0;
    while i < |current|
      invariant 0 <= i <= |current|
      invariant forall j :: 0 <= j < i ==> !SameIdentity(current[j], x)
    {
      var c := current[i];
      if c.purl != "" && x.purl != "" && c.purl == x.purl {
        return true;
      }
      if c.cpe != "" && x.cpe != "" && c.cpe == x.cpe {
        return true;
      }
      i := i + 1;
    }
    return false;
  }

  /**
   * The first-seen deduplication of `cs`: each component is kept unless a
   * component kept before it has the same identity.
   */
  function Dedup(cs: seq<Component>): (r: seq<Component>)
    ensures |r| <= |cs|
  {
    if cs == [] then []
    else
      var kept := Dedup(cs[..|cs| - 1]);
      if IsPresent(kept, cs[|cs| - 1]) then kept else kept + [cs[|cs| - 1]]
  }

  /** The components of all documents, document after document. */
  function Flatten(boms: seq<Bom>): seq<Component>
    requires forall i :: 0 <= i < |boms| ==> boms[i].components.Some?
  {
    if boms == [] then []
    else Flatten(boms[..|boms| - 1]) + boms[|boms| - 1].components.value
  }

  /** The number of components the documents hold between them. */
  function TotalComponents(boms: seq<Bom>): nat
    requires forall i :: 0 <= i < |boms| ==> boms[i].components.Some?
  {
    if boms == [] then 0
    else TotalComponents(boms[..|boms| - 1]) + |boms[|boms| - 1].components.value|
  }

  /** The document the merge describes: the merged components under a fresh root named `name`. */
  function Merged(boms: seq<Bom>, name: string): Bom
    requires forall i :: 0 <= i < |boms| ==> boms[i].components.Some?
  {
    Bom(Some(Metadata("", Some(NamedComponent(name)))), Some(Dedup(Flatten(boms))), Nil)
  }

  /**
   * `MergeCycloneDX`: a new document whose subject is named `name`, whose
   * components are the first-seen union of the inputs' components and which
   * lists no dependencies; the error is always nil.
   */
  method MergeCycloneDX(boms: seq<Bom>, name: string) returns (merged: Bom, err: Option<string>)
    requires forall i :: 0 <= i < |boms| ==> boms[i].components.Some?
    ensures err == None
    ensures merged == Merged(boms, name)
    ensures merged.metadata == Some(Metadata("", Some(NamedComponent(name))))
    ensures merged.dependencies == Nil
  {
    var mComponents: seq<Component> := [];
    var b := 0;
    while b < |boms|
      invariant 0 <= b <= |boms|
      invariant mComponents == Dedup(Flatten(boms[..b]))
    {
      var cs := boms[b].components.value;
      var k := 0;
      assert Flatten(boms[..b]) + cs[..k] == Flatten(boms[..b]);
      while k < |cs|
        invariant 0 <= k <= |cs|
        invariant mComponents == Dedup(Flatten(boms[..b]) + cs[..k])
      {
        var seen := Flatten(boms[..b]) + cs[..k + 1];
        assert seen[..|seen| - 1] == Flatten(boms[..b]) + cs[..k];
        var p := Present(mComponents, cs[k]);
        if !p {
          mComponents := mComponents + [cs[k]];
        }
        k := k + 1;
      }
      assert boms[..b + 1][..b] == boms[..b];
      assert cs[..k] == cs;
      b := b + 1;
    }
    assert boms[..b] == boms;
    merged := Bom(Some(Metadata("", Some(NamedComponent(name)))), Some(mComponents), Nil);
    err := None;
  }

  /** A component with neither a package URL nor a CPE matches nothing, not even itself. */
  lemma NoIdentityWithoutIds(a: Component, b: Component)
    requires a.purl == "" && a.cpe == ""
    ensures !SameIdentity(a, b) && !SameIdentity(b, a)
  {
  }

  /** Deduplicating a prefix gives a prefix of the deduplication. */
  lemma {:induction false} DedupPrefix(cs: seq<Component>, k: nat)
    requires k <= |cs|
    ensures Dedup(cs[..k]) <= Dedup(cs)
    decreases |cs| - k
  {
    if k < |cs| {
      var front := cs[..|cs| - 1];
      DedupPrefix(front, k);
      assert front[..k] == cs[..k];
    } else {
      assert cs[..k] == cs;
    }
  }

  /** No two merged components share an identity. */
  lemma {:induction false} DedupHasNoSharedIdentity(cs: seq<Component>)
    ensures NoSharedIdentity(Dedup(cs))
    decreases |cs|
  {
    if cs != [] {
      var n := |cs| - 1;
      var kept := Dedup(cs[..n]);
      DedupHasNoSharedIdentity(cs[..n]);
      if !IsPresent(kept, cs[n]) {
        var r := kept + [cs[n]];
        assert Dedup(cs) == r;
        forall i, j | 0 <= i < j < |r| ensures !SameIdentity(r[i], r[j]) {
          if j == |kept| {
            assert r[j] == cs[n] && r[i] == kept[i];
            assert !SameIdentity(kept[i], cs[n]);
          } else {
            assert r[i] == kept[i] && r[j] == kept[j];
          }
        }
      }
    }
  }

  /**
   * The merged components are a subsequence of the inputs, in input order:
   * `idx` gives, strictly increasing, the position each one came from.
   */
  lemma {:induction false} DedupIsSubsequence(cs: seq<Component>) returns (idx: seq<nat>)
    ensures var r := Dedup(cs);
      && |idx| == |r|
      && (forall k :: 0 <= k < |idx| ==> idx[k] < |cs| && r[k] == cs[idx[k]])
      && (forall k, l :: 0 <= k < l < |idx| ==> idx[k] < idx[l])
    decreases |cs|
  {
    if cs == [] {
      idx := [];
    } else {
      var n := |cs| - 1;
      idx := DedupIsSubsequence(cs[..n]);
      if !IsPresent(Dedup(cs[..n]), cs[n]) {
        idx := idx + [n];
      }
    }
  }

  /** Every input component is merged, or a merged component has its identity. */
  lemma {:induction false} DedupCoversInputs(cs: seq<Component>)
    ensures forall j :: 0 <= j < |cs| ==> cs[j] in Dedup(cs) || IsPresent(Dedup(cs), cs[j])
    decreases |cs|
  {
    if cs != [] {
      var n := |cs| - 1;
      var kept := Dedup(cs[..n]);
      DedupCoversInputs(cs[..n]);
      var r := Dedup(cs);
      assert kept <= r;
      forall j | 0 <= j < |cs| ensures cs[j] in r || IsPresent(r, cs[j]) {
        if j < n {
          assert cs[j] == cs[..n][j];
          if cs[j] !in kept {
            var i :| 0 <= i < |kept| && SameIdentity(kept[i], cs[j]);
            assert r[i] == kept[i];
          }
        }
      }
    }
  }

  /** No two components of `cs` share an identity. */
  predicate NoSharedIdentity(cs: seq<Component>) {
    forall i, j :: 0 <= i < j < |cs| ==> !SameIdentity(cs[i], cs[j])
  }

  /** Inputs that share no identity are merged unchanged. */
  lemma {:induction false} DedupKeepsDistinct(cs: seq<Component>)
    requires NoSharedIdentity(cs)
    ensures Dedup(cs) == cs
    decreases |cs|
  {
    if cs != [] {
      var n := |cs| - 1;
      DedupKeepsDistinct(cs[..n]);
      assert cs[..n] + [cs[n]] == cs;
    }
  }

  /** The merge drops a component exactly when two inputs share an identity. */
  lemma {:induction false} DedupKeepsAllIff(cs: seq<Component>)
    ensures |Dedup(cs)| == |cs| <==> NoSharedIdentity(cs)
    decreases |cs|
  {
    if NoSharedIdentity(cs) {
      DedupKeepsDistinct(cs);
    } else {
      var n := |cs| - 1;
      var front := cs[..n];
      DedupKeepsAllIff(front);
      if NoSharedIdentity(front) {
        DedupKeepsDistinct(front);
        var i, j :| 0 <= i < j < |cs| && SameIdentity(cs[i], cs[j]);
        assert j == n;
        assert SameIdentity(front[i], cs[n]);
      }
    }
  }

  lemma {:induction false} FlattenLength(boms: seq<Bom>)
    requires forall i :: 0 <= i < |boms| ==> boms[i].components.Some?
    ensures |Flatten(boms)| == TotalComponents(boms)
    decreases |boms|
  {
    if boms != [] {
      FlattenLength(boms[..|boms| - 1]);
    }
  }

  /**
   * The merged document holds at most as many components as the inputs
   * together, and exactly as many when no two of theirs share an identity.
   */
  lemma MergeSize(boms: seq<Bom>, name: string)
    requires forall i :: 0 <= i < |boms| ==> boms[i].components.Some?
    ensures |Merged(boms, name).components.value| <= TotalComponents(boms)
    ensures |Merged(boms, name).components.value| == TotalComponents(boms)
        <==> NoSharedIdentity(Flatten(boms))
  {
    FlattenLength(boms);
    DedupKeepsAllIff(Flatten(boms));
  }
}
