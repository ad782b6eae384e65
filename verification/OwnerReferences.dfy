/**
  Kubernetes owner references and the Cluster API helpers the reconcilers call on them.
  Two references denote the same object when API group, kind and name agree; the version is ignored.
 */
module OwnerReferences {
  import opened Common
  import opened Text

  const INFRASTRUCTURE_GROUP := "infrastructure.cluster.x-k8s.io"

  datatype OwnerReference = OwnerReference(apiVersion: string, kind: string, name: string, uid: string, controller: bool)

  /** The group of an `apiVersion`; None when it does not parse. */
  function GroupOf(apiVersion: string): Option<string> {
    if CountOf('/', apiVersion) == 0 then Some("")
    else if CountOf('/', apiVersion) == 1 then Some(Before('/', apiVersion))
    else None
  }

  predicate SameObject(a: OwnerReference, b: OwnerReference) {
    GroupOf(a.apiVersion).Some? && GroupOf(a.apiVersion) == GroupOf(b.apiVersion) && a.kind == b.kind && a.name == b.name
  }

  /** Replaces the first reference to the same object, or appends. */
  function Ensure(refs: seq<OwnerReference>, ref: OwnerReference): seq<OwnerReference> {
    if refs == [] then [ref]
    else if SameObject(refs[0], ref) then [ref] + refs[1..]
    else [refs[0]] + Ensure(refs[1..], ref)
  }

  /** Removes the first reference to the same object, if any. */
  function Remove(refs: seq<OwnerReference>, ref: OwnerReference): seq<OwnerReference> {
    if refs == [] then []
    else if SameObject(refs[0], ref) then refs[1..]
    else [refs[0]] + Remove(refs[1..], ref)
  }

  /** Does some reference in the list denote the object that `ref` denotes? */
  predicate Owned(refs: seq<OwnerReference>, ref: OwnerReference) {
    exists i :: 0 <= i < |refs| && SameObject(refs[i], ref)
  }

  lemma {:induction false} EnsureIdempotent(refs: seq<OwnerReference>, ref: OwnerReference)
    requires GroupOf(ref.apiVersion).Some?
    ensures Ensure(Ensure(refs, ref), ref) == Ensure(refs, ref)
  {
    if refs == [] {
    } else if SameObject(refs[0], ref) {
      assert SameObject(ref, ref);
    } else {
      EnsureIdempotent(refs[1..], ref);
      var once := Ensure(refs, ref);
      assert once[0] == refs[0] && once[1..] == Ensure(refs[1..], ref);
    }
  }

  /** `Ensure` makes the object an owner and changes nobody else's ownership. */
  lemma {:induction false} EnsureOwned(refs: seq<OwnerReference>, ref: OwnerReference, other: OwnerReference)
    requires GroupOf(ref.apiVersion).Some?
    ensures Owned(Ensure(refs, ref), other) <==> Owned(refs, other) || SameObject(ref, other)
  {
    var r := Ensure(refs, ref);
    if refs == [] {
      assert r[0] == ref;
    } else {
      var tail := if SameObject(refs[0], ref) then refs[1..] else Ensure(refs[1..], ref);
      OwnedCons(r[0], tail, other);
      OwnedCons(refs[0], refs[1..], other);
      assert r == [r[0]] + tail && refs == [refs[0]] + refs[1..];
      if !SameObject(refs[0], ref) {
        EnsureOwned(refs[1..], ref, other);
      }
    }
  }

  /** `Ensure` writes the reference as given, and only references to that object can disappear. */
  lemma {:induction false} EnsureWrites(refs: seq<OwnerReference>, ref: OwnerReference)
    ensures ref in Ensure(refs, ref)
    ensures forall r :: r in refs && !SameObject(r, ref) ==> r in Ensure(refs, ref)
    ensures forall r :: r in Ensure(refs, ref) ==> r == ref || r in refs
  {
    if refs != [] {
      assert refs == [refs[0]] + refs[1..];
      if !SameObject(refs[0], ref) {
        EnsureWrites(refs[1..], ref);
      }
    }
  }

  lemma OwnedCons(head: OwnerReference, tail: seq<OwnerReference>, other: OwnerReference)
    ensures Owned([head] + tail, other) <==> SameObject(head, other) || Owned(tail, other)
  {
    var s := [head] + tail;
    if SameObject(head, other) {
      assert SameObject(s[0], other);
    }
    if Owned(tail, other) {
      var i :| 0 <= i < |tail| && SameObject(tail[i], other);
      assert s[i + 1] == tail[i];
    }
  }

  /** `Remove` takes away at most the ownership of the object it names. */
  lemma {:induction false} RemoveKeepsOthers(refs: seq<OwnerReference>, ref: OwnerReference, other: OwnerReference)
    requires !SameObject(ref, other)
    ensures Owned(Remove(refs, ref), other) <==> Owned(refs, other)
  {
    if refs != [] {
      OwnedCons(refs[0], refs[1..], other);
      assert refs == [refs[0]] + refs[1..];
      if !SameObject(refs[0], ref) {
        RemoveKeepsOthers(refs[1..], ref, other);
        OwnedCons(refs[0], Remove(refs[1..], ref), other);
      }
    }
  }

  /** Each object is referenced at most once. */
  predicate OnePerObject(refs: seq<OwnerReference>) {
    forall i, j :: 0 <= i < j < |refs| ==> !SameObject(refs[i], refs[j])
  }

  lemma OnePerObjectCons(head: OwnerReference, tail: seq<OwnerReference>)
    ensures OnePerObject([head] + tail) <==> OnePerObject(tail) && !Owned(tail, head)
  {
    var s := [head] + tail;
    if OnePerObject(s) {
      assert s[1..] == tail;
      forall i | 0 <= i < |tail| ensures !SameObject(tail[i], head) {
        assert !SameObject(s[0], s[i + 1]);
      }
    }
  }

  lemma {:induction false} EnsureOnePerObject(refs: seq<OwnerReference>, ref: OwnerReference)
    requires OnePerObject(refs) && GroupOf(ref.apiVersion).Some?
    ensures OnePerObject(Ensure(refs, ref))
  {
    if refs != [] {
      assert refs == [refs[0]] + refs[1..];
      OnePerObjectCons(refs[0], refs[1..]);
      if SameObject(refs[0], ref) {
        OnePerObjectCons(ref, refs[1..]);
      } else {
        EnsureOnePerObject(refs[1..], ref);
        EnsureOwned(refs[1..], ref, refs[0]);
        OnePerObjectCons(refs[0], Ensure(refs[1..], ref));
      }
    }
  }

  /** `Remove` takes the object's only reference away. */
  lemma {:induction false} RemoveOnePerObject(refs: seq<OwnerReference>, ref: OwnerReference)
    requires OnePerObject(refs)
    ensures OnePerObject(Remove(refs, ref)) && !Owned(Remove(refs, ref), ref)
  {
    if refs != [] {
      assert refs == [refs[0]] + refs[1..];
      OnePerObjectCons(refs[0], refs[1..]);
      if !SameObject(refs[0], ref) {
        RemoveOnePerObject(refs[1..], ref);
        OwnedCons(refs[0], Remove(refs[1..], ref), ref);
        RemoveKeepsOthers(refs[1..], ref, refs[0]);
        OnePerObjectCons(refs[0], Remove(refs[1..], ref));
      }
    }
  }

  /** Nothing is left exactly when there was no reference to anything else. */
  lemma RemoveLast(refs: seq<OwnerReference>, ref: OwnerReference)
    requires OnePerObject(refs)
    ensures Remove(refs, ref) == [] <==> forall i :: 0 <= i < |refs| ==> SameObject(refs[i], ref)
  {
    if |refs| > 1 {
      assert !SameObject(refs[0], refs[1]);
    }
  }

  /** Printing group and version and parsing the group back. */
  lemma GroupOfPrinted(group: string, version: string)
    requires '/' !in group && '/' !in version
    ensures GroupOf(group + "/" + version) == Some(group)
  {
    CountOfConcat('/', group + "/", version);
    CountOfConcat('/', group, "/");
    CountOfNone('/', group);
    CountOfNone('/', version);
    assert "/" == ['/'] && "/"[1..] == [];
    assert CountOf('/', "/") == 1;
    BeforeConcat('/', group, version);
    assert group + "/" + version == group + ['/'] + version;
  }

  /** A reference to a govmomi-mode object of this provider, as its reconcilers write it. */
  function InfrastructureReference(kind: string, name: string, uid: string): OwnerReference {
    OwnerReference(INFRASTRUCTURE_GROUP + "/" + "v1beta2", kind, name, uid, false)
  }

  lemma InfrastructureGroup(kind: string, name: string, uid: string)
    ensures GroupOf(InfrastructureReference(kind, name, uid).apiVersion) == Some(INFRASTRUCTURE_GROUP)
  {
    GroupOfPrinted(INFRASTRUCTURE_GROUP, "v1beta2");
  }
}
