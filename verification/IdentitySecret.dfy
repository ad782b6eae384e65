/**
  The credentials Secret that a VSphereCluster or a VSphereClusterIdentity takes over by becoming its owner. Each
  claim reads, checks and writes in one step; others may edit owner references that do not count as a claim.
 */
module IdentitySecret {
  import opened Common
  import opened Text
  import opened OwnerReferences

  const SECRET_IDENTITY_SET_FINALIZER := "vspherecluster/infrastructure.cluster.x-k8s.io"

  predicate Contains(s: string, sub: string) {
    exists i :: 0 <= i <= |s| - |sub| && s[i..][..|sub|] == sub
  }

  /** An owner reference that takes the Secret: a VSphereCluster or VSphereClusterIdentity of this provider. */
  predicate Exclusive(ref: OwnerReference) {
    Contains(ref.apiVersion, INFRASTRUCTURE_GROUP + "/") && (ref.kind == "VSphereCluster" || ref.kind == "VSphereClusterIdentity")
  }

  predicate IsOwnedByIdentityOrCluster(refs: seq<OwnerReference>) {
    exists i :: 0 <= i < |refs| && Exclusive(refs[i])
  }

  datatype Claimant = Cluster(name: string, uid: string) | Identity(name: string, uid: string)

  function ReferenceTo(c: Claimant): OwnerReference {
    InfrastructureReference(if c.Cluster? then "VSphereCluster" else "VSphereClusterIdentity", c.name, c.uid)
  }

  /** The reference a claimant writes, with its own uid. */
  function WrittenBy(c: Claimant): OwnerReference {
    OwnerReference(INFRASTRUCTURE_GROUP + "/" + "v1beta2", if c.Cluster? then "VSphereCluster" else "VSphereClusterIdentity", c.name, c.uid, false)
  }

  /** Same kind and name: a re-created object counts as the same claimant. */
  predicate SameClaimant(a: Claimant, b: Claimant) {
    a.Cluster? == b.Cluster? && a.name == b.name
  }

  predicate MayClaim(refs: seq<OwnerReference>, c: Claimant) {
    Owned(refs, ReferenceTo(c)) || !IsOwnedByIdentityOrCluster(refs)
  }

  class Secret {
    var ownerReferences: seq<OwnerReference>
    var finalizers: set<string>

    /** `reconcileIdentitySecret` of a VSphereCluster; `patched` is the outcome of the final patch. */
    method ClaimForCluster(name: string, uid: string, patched: bool) returns (ok: bool)
      modifies this
      ensures ok == (MayClaim(old(ownerReferences), Cluster(name, uid)) && patched)
      ensures ownerReferences == if ok then Ensure(old(ownerReferences), ReferenceTo(Cluster(name, uid))) else old(ownerReferences)
      ensures finalizers == if ok then old(finalizers) + {SECRET_IDENTITY_SET_FINALIZER} else old(finalizers)
    {
      var ref := InfrastructureReference("VSphereCluster", name, uid);
      if !Owned(ownerReferences, ref) && IsOwnedByIdentityOrCluster(ownerReferences) {
        return false;
      }
      var owners := Ensure(ownerReferences, ref);
      var added := finalizers;
      if SECRET_IDENTITY_SET_FINALIZER !in added {
        added := added + {SECRET_IDENTITY_SET_FINALIZER};
      }
      if !patched {
        return false;
      }
      ownerReferences, finalizers := owners, added;
      return true;
    }

    /** The claim part of a VSphereClusterIdentity reconcile; `ready` is the status it reports, if it sets one. */
    method ClaimForIdentity(name: string, uid: string, updated: bool) returns (ok: bool, ready: Option<bool>)
      modifies this
      ensures ok == (MayClaim(old(ownerReferences), Identity(name, uid)) && updated)
      ensures ownerReferences == if ok then Ensure(old(ownerReferences), ReferenceTo(Identity(name, uid))) else old(ownerReferences)
      ensures finalizers == if ok then old(finalizers) + {SECRET_IDENTITY_SET_FINALIZER} else old(finalizers)
      ensures ready == if ok then Some(true) else if MayClaim(old(ownerReferences), Identity(name, uid)) then None else Some(false)
    {
      var ref := InfrastructureReference("VSphereClusterIdentity", name, uid);
      if !Owned(ownerReferences, ref) && IsOwnedByIdentityOrCluster(ownerReferences) {
        return false, Some(false);
      }
      var owners := Ensure(ownerReferences, ref);
      var added := finalizers;
      if SECRET_IDENTITY_SET_FINALIZER !in added {
        added := added + {SECRET_IDENTITY_SET_FINALIZER};
      }
      if !updated {
        return false, None;
      }
      ownerReferences, finalizers := owners, added;
      return true, Some(true);
    }
  }

  // ---------------------------------------------------------------------------------------------
  // Exclusive owners
  // ---------------------------------------------------------------------------------------------

  /** The owner references that take the Secret, in list order. */
  function Takers(refs: seq<OwnerReference>): seq<OwnerReference> {
    if refs == [] then []
    else (if Exclusive(refs[0]) then [refs[0]] else []) + Takers(refs[1..])
  }

  lemma {:induction false} TakersExact(refs: seq<OwnerReference>)
    ensures Takers(refs) == [] <==> !IsOwnedByIdentityOrCluster(refs)
    ensures forall r :: r in Takers(refs) <==>
              && r in refs && Contains(r.apiVersion, INFRASTRUCTURE_GROUP + "/")
              && (r.kind == "VSphereCluster" || r.kind == "VSphereClusterIdentity")
  {
    if refs != [] {
      TakersExact(refs[1..]);
      assert refs == [refs[0]] + refs[1..];
      assert Takers(refs) == [] ==> forall r :: r in refs ==> !Exclusive(r);
      if IsOwnedByIdentityOrCluster(refs) {
        var i :| 0 <= i < |refs| && Exclusive(refs[i]);
        assert refs[i] in refs;
      }
      if Takers(refs) != [] {
        assert Takers(refs)[0] in Takers(refs);
      }
    }
  }

  /** A version of the provider's group mentions the group followed by a slash. */
  lemma GroupIsContained(apiVersion: string)
    requires GroupOf(apiVersion) == Some(INFRASTRUCTURE_GROUP)
    ensures Contains(apiVersion, INFRASTRUCTURE_GROUP + "/")
  {
    if '/' !in apiVersion {
      CountOfNone('/', apiVersion);
    } else {
      BeforeAfter('/', apiVersion);
      var sub := INFRASTRUCTURE_GROUP + "/";
      assert apiVersion[0..][..|sub|] == sub;
    }
  }

  /** Whatever denotes the claimant takes the Secret. */
  lemma ClaimantTakes(ref: OwnerReference, c: Claimant)
    requires SameObject(ref, ReferenceTo(c))
    ensures Exclusive(ref)
  {
    InfrastructureGroup(ReferenceTo(c).kind, c.name, c.uid);
    GroupIsContained(ref.apiVersion);
  }

  /** A claim that is allowed on a Secret with at most one taker makes the claimant the only taker. */
  lemma {:induction false} EnsureTakes(refs: seq<OwnerReference>, c: Claimant)
    requires |Takers(refs)| <= 1
    requires Owned(refs, ReferenceTo(c)) || Takers(refs) == []
    ensures Takers(Ensure(refs, ReferenceTo(c))) == [ReferenceTo(c)]
  {
    var ref := ReferenceTo(c);
    InfrastructureGroup(ref.kind, c.name, c.uid);
    assert SameObject(ref, ref);
    ClaimantTakes(ref, c);
    if refs == [] {
      assert Takers([ref]) == [ref];
    } else if SameObject(refs[0], ref) {
      ClaimantTakes(refs[0], c);
      assert Takers(refs[1..]) == [];
      assert ([ref] + refs[1..])[1..] == refs[1..];
    } else {
      OwnedCons(refs[0], refs[1..], ref);
      assert refs == [refs[0]] + refs[1..];
      if Owned(refs[1..], ref) {
        OwnedTaken(refs[1..], c);
      }
      EnsureTakes(refs[1..], c);
      var r := [refs[0]] + Ensure(refs[1..], ref);
      assert r[1..] == Ensure(refs[1..], ref) && r[0] == refs[0];
    }
  }

  lemma OwnedTaken(refs: seq<OwnerReference>, c: Claimant)
    requires Owned(refs, ReferenceTo(c))
    ensures Takers(refs) != []
  {
    var i :| 0 <= i < |refs| && SameObject(refs[i], ReferenceTo(c));
    ClaimantTakes(refs[i], c);
    TakersExact(refs);
  }

  // ---------------------------------------------------------------------------------------------
  // Runs
  // ---------------------------------------------------------------------------------------------

  datatype Step =
    | Claim(claimant: Claimant, written: bool)
    | EditOthers(refs: seq<OwnerReference>)    // any edit that leaves the takers alone

  ghost predicate Allowed(refs: seq<OwnerReference>, step: Step) {
    step.EditOthers? ==> Takers(step.refs) == Takers(refs)
  }

  /** A claim changes the owners exactly as the two methods above do. */
  function After(refs: seq<OwnerReference>, step: Step): seq<OwnerReference> {
    match step
    case Claim(c, written) => if MayClaim(refs, c) && written then Ensure(refs, ReferenceTo(c)) else refs
    case EditOthers(refs') => refs'
  }

  function AfterAll(refs: seq<OwnerReference>, steps: seq<Step>): seq<OwnerReference>
    decreases |steps|
  {
    if steps == [] then refs else AfterAll(After(refs, steps[0]), steps[1..])
  }

  ghost predicate AllAllowed(refs: seq<OwnerReference>, steps: seq<Step>)
    decreases |steps|
  {
    steps == [] || (Allowed(refs, steps[0]) && AllAllowed(After(refs, steps[0]), steps[1..]))
  }

  lemma StepTakers(refs: seq<OwnerReference>, step: Step)
    requires |Takers(refs)| <= 1 && Allowed(refs, step)
    ensures Takers(After(refs, step))
         == if step.Claim? && MayClaim(refs, step.claimant) && step.written then [WrittenBy(step.claimant)] else Takers(refs)
  {
    if step.Claim? && MayClaim(refs, step.claimant) && step.written {
      TakersExact(refs);
      EnsureTakes(refs, step.claimant);
    }
  }

  /** Under every interleaving of claims by clusters and identities the Secret keeps at most one exclusive owner. */
  lemma {:induction false} AtMostOneOwner(refs: seq<OwnerReference>, steps: seq<Step>)
    requires |Takers(refs)| <= 1 && AllAllowed(refs, steps)
    ensures |Takers(AfterAll(refs, steps))| <= 1
    decreases |steps|
  {
    if steps != [] {
      StepTakers(refs, steps[0]);
      AtMostOneOwner(After(refs, steps[0]), steps[1..]);
    }
  }

  /** Everybody may claim a Secret that nobody has taken. */
  lemma FreeForAll(refs: seq<OwnerReference>, c: Claimant)
    requires Takers(refs) == []
    ensures MayClaim(refs, c)
  {
    TakersExact(refs);
  }

  lemma HolderDecides(refs: seq<OwnerReference>, holder: Claimant, c: Claimant, taker: OwnerReference)
    requires Takers(refs) == [taker] && SameObject(taker, ReferenceTo(holder))
    ensures MayClaim(refs, c) <==> SameClaimant(holder, c)
  {
    TakersExact(refs);
    InfrastructureGroup(ReferenceTo(holder).kind, holder.name, holder.uid);
    InfrastructureGroup(ReferenceTo(c).kind, c.name, c.uid);
    assert taker in Takers(refs);
    if Owned(refs, ReferenceTo(c)) {
      var i :| 0 <= i < |refs| && SameObject(refs[i], ReferenceTo(c));
      ClaimantTakes(refs[i], c);
      assert refs[i] in refs;
      assert refs[i] in Takers(refs);
    }
    if SameClaimant(holder, c) {
      var i :| 0 <= i < |refs| && refs[i] == taker;
      assert SameObject(refs[i], ReferenceTo(c));
    }
  }

  /** The first claimant keeps the Secret: later claims succeed only for the same kind and name, and it stays the owner. */
  lemma {:induction false} FirstClaimantKeeps(refs: seq<OwnerReference>, steps: seq<Step>, holder: Claimant, taker: OwnerReference)
    requires Takers(refs) == [taker] && SameObject(taker, ReferenceTo(holder)) && AllAllowed(refs, steps)
    ensures exists t :: Takers(AfterAll(refs, steps)) == [t] && SameObject(t, ReferenceTo(holder))
    ensures forall c :: MayClaim(AfterAll(refs, steps), c) <==> SameClaimant(holder, c)
    decreases |steps|
  {
    if steps == [] {
      forall c ensures MayClaim(refs, c) <==> SameClaimant(holder, c) {
        HolderDecides(refs, holder, c, taker);
      }
    } else {
      var next := After(refs, steps[0]);
      StepTakers(refs, steps[0]);
      var t := taker;
      if Takers(next) != Takers(refs) {
        HolderDecides(refs, holder, steps[0].claimant, taker);
        t := ReferenceTo(steps[0].claimant);
        InfrastructureGroup(t.kind, t.name, t.uid);
        InfrastructureGroup(ReferenceTo(holder).kind, holder.name, holder.uid);
      }
      FirstClaimantKeeps(next, steps[1..], holder, t);
    }
  }
}
