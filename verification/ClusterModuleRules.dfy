/**
  What cluster-module reconciliation guarantees: the loop that consumes the owner map follows a rule for each record
  alone, modules are neither duplicated nor silently dropped, every owner's outcome is reported, and a settled module
  list is a fixpoint.
 */
module ClusterModuleRules {
  import opened Common
  import opened ClusterModules

  ghost predicate DistinctKeys(modules: seq<ClusterModule>) {
    forall i, j :: 0 <= i < j < |modules| ==> ModuleKey(modules[i]) != ModuleKey(modules[j])
  }

  ghost predicate HasEntry(modules: seq<ClusterModule>, key: string) {
    exists i :: 0 <= i < |modules| && ModuleKey(modules[i]) == key
  }

  ghost predicate Recorded(modules: seq<ClusterModule>, uuid: string) {
    exists i :: 0 <= i < |modules| && modules[i].moduleUUID == uuid
  }

  /** Every entry is the entry of the live owner it is keyed by. */
  ghost predicate EntriesOf(modules: seq<ClusterModule>, owners: Owners) {
    forall i :: 0 <= i < |modules| ==>
      ModuleKey(modules[i]) in owners && modules[i] == Entry(owners[ModuleKey(modules[i])], modules[i].moduleUUID)
  }

  /** The owners split into those with an entry and those still pending. */
  ghost predicate Partitioned(p: Progress, owners: Owners) {
    && p.pending.Keys <= owners.Keys
    && (forall key :: key in p.pending ==> p.pending[key] == owners[key])
    && (forall key :: key in owners ==> (key in p.pending <==> !HasEntry(p.modules, key)))
    && DistinctKeys(p.modules)
    && EntriesOf(p.modules, owners)
  }

  lemma HasEntryAppend(modules: seq<ClusterModule>, mod: ClusterModule, key: string)
    ensures HasEntry(modules + [mod], key) <==> HasEntry(modules, key) || ModuleKey(mod) == key
  {
    var all := modules + [mod];
    if HasEntry(modules, key) {
      var i :| 0 <= i < |modules| && ModuleKey(modules[i]) == key;
      assert all[i] == modules[i];
    }
    assert all[|modules|] == mod;
  }

  /** Adding the entry of a pending owner keeps the entries well formed. */
  lemma EntryAdded(modules: seq<ClusterModule>, owners: Owners, key: string, uuid: string)
    requires WellKeyed(owners) && DistinctKeys(modules) && EntriesOf(modules, owners)
    requires key in owners && !HasEntry(modules, key)
    ensures var all := modules + [Entry(owners[key], uuid)];
            && DistinctKeys(all) && EntriesOf(all, owners)
            && forall k :: HasEntry(all, k) <==> HasEntry(modules, k) || k == key
  {
    var e := Entry(owners[key], uuid);
    assert ModuleKey(e) == OwnerKey(owners[key]) == key;
    forall k ensures HasEntry(modules + [e], k) <==> HasEntry(modules, k) || k == key {
      HasEntryAppend(modules, e, k);
    }
  }

  lemma {:induction false} VerifySplits(owners: Owners, recorded: seq<ClusterModule>, answers: seq<Existence>)
    requires WellKeyed(owners) && |answers| == |recorded|
    ensures Partitioned(VerifyAll(owners, recorded, answers), owners)
  {
    if recorded != [] {
      var n := |recorded| - 1;
      VerifySplits(owners, recorded[..n], answers[..n]);
      var p := VerifyAll(owners, recorded[..n], answers[..n]);
      var key := ModuleKey(recorded[n]);
      if key in p.pending {
        EntryAdded(p.modules, owners, key, recorded[n].moduleUUID);
      }
    }
  }

  predicate Makes(creator: Creator, key: string) {
    creator(key).Created? && creator(key).uuid != ""
  }

  lemma {:induction false} CreateSplits(p: Progress, owners: Owners, order: seq<string>, creator: Creator)
    requires WellKeyed(owners) && Partitioned(p, owners)
    requires Distinct(order) && forall i :: 0 <= i < |order| ==> order[i] in p.pending
    ensures var r := CreateAll(p, order, creator);
            && DistinctKeys(r.modules) && EntriesOf(r.modules, owners)
            && (forall key :: HasEntry(r.modules, key) <==> HasEntry(p.modules, key) || (key in order && Makes(creator, key)))
  {
    if order != [] {
      var n := |order| - 1;
      CreateSplits(p, owners, order[..n], creator);
      CreateOneSplits(CreateAll(p, order[..n], creator), owners, order[n], creator(order[n]));
      assert order == order[..n] + [order[n]];
      assert order[n] !in order[..n];
    }
  }

  lemma CreateOneSplits(q: Progress, owners: Owners, key: string, answer: Creation)
    requires WellKeyed(owners) && DistinctKeys(q.modules) && EntriesOf(q.modules, owners)
    requires key in owners && !HasEntry(q.modules, key)
    ensures var r := CreateOne(q, key, owners[key], answer);
            && DistinctKeys(r.modules) && EntriesOf(r.modules, owners)
            && (forall k :: HasEntry(r.modules, k) <==> HasEntry(q.modules, k) || (k == key && answer.Created? && answer.uuid != ""))
  {
    if answer.Created? && answer.uuid != "" {
      EntryAdded(q.modules, owners, key, answer.uuid);
    }
  }

  // ---------------------------------------------------------------------------------------------
  // The loops without their variables
  // ---------------------------------------------------------------------------------------------

  /** Every module recorded for `key` was answered Missing. */
  ghost predicate AllMissing(recorded: seq<ClusterModule>, answers: seq<Existence>, key: string)
    requires |answers| == |recorded|
  {
    forall i :: 0 <= i < |recorded| && ModuleKey(recorded[i]) == key ==> answers[i] == Missing
  }

  /** Record `i` names a live owner, and every earlier record of that owner was answered Missing. */
  ghost predicate LookedUp(owners: Owners, recorded: seq<ClusterModule>, answers: seq<Existence>, i: nat)
    requires |answers| == |recorded| && i < |recorded|
  {
    ModuleKey(recorded[i]) in owners && AllMissing(recorded[..i], answers[..i], ModuleKey(recorded[i]))
  }

  /** Record `i` is the first one of its live owner that was not answered Missing. */
  ghost predicate FirstFound(owners: Owners, recorded: seq<ClusterModule>, answers: seq<Existence>, i: nat)
    requires |answers| == |recorded| && i < |recorded|
  {
    LookedUp(owners, recorded, answers, i) && answers[i] != Missing
  }

  /** The entries of the records that were found first. */
  ghost function KeptEntries(owners: Owners, recorded: seq<ClusterModule>, answers: seq<Existence>): seq<ClusterModule>
    requires |answers| == |recorded|
  {
    if recorded == [] then []
    else
      var n := |recorded| - 1;
      KeptEntries(owners, recorded[..n], answers[..n])
      + if FirstFound(owners, recorded, answers, n)
        then [Entry(owners[ModuleKey(recorded[n])], recorded[n].moduleUUID)] else []
  }

  /** One error for each lookup that failed. */
  ghost function CheckErrors(owners: Owners, recorded: seq<ClusterModule>, answers: seq<Existence>): seq<ModError>
    requires |answers| == |recorded|
  {
    if recorded == [] then []
    else
      var n := |recorded| - 1;
      CheckErrors(owners, recorded[..n], answers[..n])
      + if LookedUp(owners, recorded, answers, n) && answers[n].CheckFailed?
        then [ModError(owners[ModuleKey(recorded[n])].name, answers[n].incompatibleOwner)] else []
  }

  /** One entry for each owner for which Create returned a UUID. */
  function MadeEntries(owners: Owners, order: seq<string>, creator: Creator): seq<ClusterModule>
    requires forall i :: 0 <= i < |order| ==> order[i] in owners
  {
    if order == [] then []
    else
      var n := |order| - 1;
      MadeEntries(owners, order[..n], creator)
      + if Makes(creator, order[n]) then [Entry(owners[order[n]], creator(order[n]).uuid)] else []
  }

  /** One error for each owner for which Create failed. */
  function CreateErrors(owners: Owners, order: seq<string>, creator: Creator): seq<ModError>
    requires forall i :: 0 <= i < |order| ==> order[i] in owners
  {
    if order == [] then []
    else
      var n := |order| - 1;
      CreateErrors(owners, order[..n], creator)
      + if creator(order[n]).CreateFailed? then [ModError(owners[order[n]].name, creator(order[n]).incompatibleOwner)] else []
  }

  lemma AllMissingLast(recorded: seq<ClusterModule>, answers: seq<Existence>, key: string)
    requires |answers| == |recorded| && recorded != []
    ensures var n := |recorded| - 1;
            AllMissing(recorded, answers, key) <==>
              AllMissing(recorded[..n], answers[..n], key) && (ModuleKey(recorded[n]) == key ==> answers[n] == Missing)
  {
    var n := |recorded| - 1;
    assert forall i :: 0 <= i < n ==> recorded[..n][i] == recorded[i] && answers[..n][i] == answers[i];
  }

  /** The first loop, which consumes the owner map, follows the rule for each record alone. */
  lemma {:induction false} VerifyExact(owners: Owners, recorded: seq<ClusterModule>, answers: seq<Existence>)
    requires |answers| == |recorded|
    ensures var p := VerifyAll(owners, recorded, answers);
            && p.modules == KeptEntries(owners, recorded, answers)
            && p.errors == CheckErrors(owners, recorded, answers)
            && (forall key :: key in p.pending <==> key in owners && AllMissing(recorded, answers, key))
            && (forall key :: key in p.pending ==> p.pending[key] == owners[key])
  {
    if recorded != [] {
      var n := |recorded| - 1;
      VerifyExact(owners, recorded[..n], answers[..n]);
      forall key ensures AllMissing(recorded, answers, key) <==>
                         AllMissing(recorded[..n], answers[..n], key) && (ModuleKey(recorded[n]) == key ==> answers[n] == Missing)
      {
        AllMissingLast(recorded, answers, key);
      }
    }
  }

  lemma LookedUpPrefix(owners: Owners, recorded: seq<ClusterModule>, answers: seq<Existence>, n: nat, i: nat)
    requires |answers| == |recorded| && i < n <= |recorded|
    ensures LookedUp(owners, recorded[..n], answers[..n], i) == LookedUp(owners, recorded, answers, i)
  {
    assert recorded[..n][..i] == recorded[..i] && answers[..n][..i] == answers[..i];
  }

  /** One call for each record, in order: a lookup while its owner has no module yet, and Remove otherwise. */
  lemma {:induction false} CallFor(owners: Owners, recorded: seq<ClusterModule>, answers: seq<Existence>, i: nat)
    requires |answers| == |recorded| && i < |recorded|
    ensures var p, mod := VerifyAll(owners, recorded, answers), recorded[i];
            && |p.calls| == |recorded|
            && p.calls[i] == if LookedUp(owners, recorded, answers, i) then Check(ModuleKey(mod), mod.moduleUUID)
                             else Remove(mod.moduleUUID)
  {
    var n := |recorded| - 1;
    VerifyExact(owners, recorded[..n], answers[..n]);
    if n > 0 {
      CallFor(owners, recorded[..n], answers[..n], if i < n then i else 0);
    }
    if i < n {
      LookedUpPrefix(owners, recorded, answers, n, i);
    }
  }

  /** The kept UUIDs are those of the records found first. */
  lemma {:induction false} KeptEntry(owners: Owners, recorded: seq<ClusterModule>, answers: seq<Existence>, i: nat)
    requires |answers| == |recorded| && i < |recorded| && FirstFound(owners, recorded, answers, i)
    ensures Entry(owners[ModuleKey(recorded[i])], recorded[i].moduleUUID) in KeptEntries(owners, recorded, answers)
  {
    var n := |recorded| - 1;
    if i < n {
      LookedUpPrefix(owners, recorded, answers, n, i);
      KeptEntry(owners, recorded[..n], answers[..n], i);
    }
  }

  lemma {:induction false} KeptFrom(owners: Owners, recorded: seq<ClusterModule>, answers: seq<Existence>, k: nat) returns (i: nat)
    requires |answers| == |recorded| && k < |KeptEntries(owners, recorded, answers)|
    ensures i < |recorded| && FirstFound(owners, recorded, answers, i)
    ensures KeptEntries(owners, recorded, answers)[k] == Entry(owners[ModuleKey(recorded[i])], recorded[i].moduleUUID)
  {
    var n := |recorded| - 1;
    if k < |KeptEntries(owners, recorded[..n], answers[..n])| {
      i := KeptFrom(owners, recorded[..n], answers[..n], k);
      LookedUpPrefix(owners, recorded, answers, n, i);
    } else {
      i := n;
    }
  }

  /** An owner one of whose records was not answered Missing has a first such record. */
  lemma {:induction false} FirstExists(owners: Owners, recorded: seq<ClusterModule>, answers: seq<Existence>, key: string) returns (i: nat)
    requires |answers| == |recorded| && key in owners && !AllMissing(recorded, answers, key)
    ensures i < |recorded| && ModuleKey(recorded[i]) == key && FirstFound(owners, recorded, answers, i)
  {
    var n := |recorded| - 1;
    AllMissingLast(recorded, answers, key);
    if AllMissing(recorded[..n], answers[..n], key) {
      i := n;
    } else {
      i := FirstExists(owners, recorded[..n], answers[..n], key);
      LookedUpPrefix(owners, recorded, answers, n, i);
    }
  }

  /** The second loop adds the made entries and the failures, in the order in which it calls Create. */
  lemma {:induction false} CreateExact(p: Progress, owners: Owners, order: seq<string>, creator: Creator)
    requires forall i :: 0 <= i < |order| ==> order[i] in p.pending && order[i] in owners && p.pending[order[i]] == owners[order[i]]
    ensures var r := CreateAll(p, order, creator);
            && r.modules == p.modules + MadeEntries(owners, order, creator)
            && r.errors == p.errors + CreateErrors(owners, order, creator)
  {
    if order != [] {
      var n := |order| - 1;
      CreateExact(p, owners, order[..n], creator);
    }
  }

  lemma {:induction false} MadeEntry(owners: Owners, order: seq<string>, creator: Creator, key: string)
    requires forall i :: 0 <= i < |order| ==> order[i] in owners
    requires key in order && Makes(creator, key)
    ensures Entry(owners[key], creator(key).uuid) in MadeEntries(owners, order, creator)
  {
    var n := |order| - 1;
    assert order == order[..n] + [order[n]];
    if key != order[n] {
      MadeEntry(owners, order[..n], creator, key);
    }
  }

  // ---------------------------------------------------------------------------------------------
  // Results
  // ---------------------------------------------------------------------------------------------

  /** The result has at most one entry for each owner, only for live owners, and at most one control-plane entry. */
  lemma OneEntryPerOwner(owners: Owners, recorded: seq<ClusterModule>, answers: seq<Existence>, creator: Creator, result: Progress)
    requires WellKeyed(owners) && OneControlPlane(owners) && |answers| == |recorded|
    requires Reconciled(owners, recorded, answers, creator, result)
    ensures DistinctKeys(result.modules)
    ensures forall i :: 0 <= i < |result.modules| ==>
              var key := ModuleKey(result.modules[i]);
              && key in owners && result.modules[i].targetObjectName == owners[key].name
              && result.modules[i].controlPlane == Some(owners[key].controlPlane)
    ensures forall i, j :: 0 <= i < j < |result.modules| ==> !(IsControlPlane(result.modules[i]) && IsControlPlane(result.modules[j]))
  {
    var p := VerifyAll(owners, recorded, answers);
    var order :| Enumerates(order, p.pending.Keys) && result == CreateAll(p, order, creator);
    VerifySplits(owners, recorded, answers);
    CreateSplits(p, owners, order, creator);
    var ms := result.modules;
    forall i, j | 0 <= i < j < |ms| ensures !(IsControlPlane(ms[i]) && IsControlPlane(ms[j])) {
      var a, b := ModuleKey(ms[i]), ModuleKey(ms[j]);
      assert a != b && !(owners[a].controlPlane && owners[b].controlPlane);
    }
  }

  /**
    The whole result: the modules are the kept entries followed by the made ones, the errors are the failed lookups
    followed by the failed creations and nothing else, and Create is called once for each owner all of whose records are
    missing, in the order in which entries and errors appear.
   */
  lemma ReconcileExact(owners: Owners, recorded: seq<ClusterModule>, answers: seq<Existence>, creator: Creator, result: Progress)
    returns (order: seq<string>)
    requires |answers| == |recorded| && Reconciled(owners, recorded, answers, creator, result)
    ensures Distinct(order)
    ensures forall key :: key in order <==> key in owners && AllMissing(recorded, answers, key)
    ensures result.modules == KeptEntries(owners, recorded, answers) + MadeEntries(owners, order, creator)
    ensures result.errors == CheckErrors(owners, recorded, answers) + CreateErrors(owners, order, creator)
    ensures result.calls == VerifyAll(owners, recorded, answers).calls + CreatesFor(order)
  {
    var p := VerifyAll(owners, recorded, answers);
    order :| Enumerates(order, p.pending.Keys) && result == CreateAll(p, order, creator);
    VerifyExact(owners, recorded, answers);
    CreateExact(p, owners, order, creator);
    CreateCalls(p, order, creator);
  }

  /** How a live owner can leave a reconcile. */
  datatype Fate = Kept | Made | MakeFailed | MakeSkipped

  /** The fate that the answers of the service decide. */
  ghost function FateOf(recorded: seq<ClusterModule>, answers: seq<Existence>, creator: Creator, key: string): Fate
    requires |answers| == |recorded|
  {
    if !AllMissing(recorded, answers, key) then Kept
    else if creator(key).CreateFailed? then MakeFailed
    else if creator(key).uuid == "" then MakeSkipped
    else Made
  }

  /** The result holds the entry of some record of `key` that was found first. */
  ghost predicate KeepsFirst(owners: Owners, recorded: seq<ClusterModule>, answers: seq<Existence>, key: string, modules: seq<ClusterModule>)
    requires |answers| == |recorded| && key in owners
  {
    exists i :: && 0 <= i < |recorded| && ModuleKey(recorded[i]) == key && FirstFound(owners, recorded, answers, i)
                && Entry(owners[key], recorded[i].moduleUUID) in modules
  }

  /**
    Conservation: an owner has an entry in the result exactly when its module was kept or made; a kept entry carries the
    UUID of the first record not answered Missing, a made one the UUID that Create returned; Create is called once
    exactly for owners without a kept module; and a failed creation is reported under the owner's name.
   */
  lemma EveryOwnerAccounted(owners: Owners, recorded: seq<ClusterModule>, answers: seq<Existence>, creator: Creator, result: Progress, key: string)
    requires WellKeyed(owners) && |answers| == |recorded| && key in owners
    requires Reconciled(owners, recorded, answers, creator, result)
    ensures var fate := FateOf(recorded, answers, creator, key);
            && (HasEntry(result.modules, key) <==> fate == Kept || fate == Made)
            && (fate == Kept ==> KeepsFirst(owners, recorded, answers, key, result.modules))
            && (fate == Made ==> Entry(owners[key], creator(key).uuid) in result.modules)
            && (fate == MakeFailed ==> ModError(owners[key].name, creator(key).incompatibleOwner) in result.errors)
            && multiset(result.calls)[Create(key)] == (if fate == Kept then 0 else 1)
  {
    var order := ReconcileExact(owners, recorded, answers, creator, result);
    VerifyCreatesNothing(owners, recorded, answers, key);
    CreateCallCount(order, key);
    AccountedEntry(owners, recorded, answers, creator, result, key);
    match FateOf(recorded, answers, creator, key)
    case Kept =>
      var i := FirstExists(owners, recorded, answers, key);
      KeptEntry(owners, recorded, answers, i);
    case Made => MadeEntry(owners, order, creator, key);
    case MakeFailed => FailureReported(owners, order, creator, key);
    case MakeSkipped =>
  }

  lemma AccountedEntry(owners: Owners, recorded: seq<ClusterModule>, answers: seq<Existence>, creator: Creator, result: Progress, key: string)
    requires WellKeyed(owners) && |answers| == |recorded| && key in owners
    requires Reconciled(owners, recorded, answers, creator, result)
    ensures HasEntry(result.modules, key) <==> !AllMissing(recorded, answers, key) || Makes(creator, key)
  {
    var p := VerifyAll(owners, recorded, answers);
    var order :| Enumerates(order, p.pending.Keys) && result == CreateAll(p, order, creator);
    VerifySplits(owners, recorded, answers);
    CreateSplits(p, owners, order, creator);
    VerifyExact(owners, recorded, answers);
  }

  lemma {:induction false} FailureReported(owners: Owners, order: seq<string>, creator: Creator, key: string)
    requires forall i :: 0 <= i < |order| ==> order[i] in owners
    requires key in order && creator(key).CreateFailed?
    ensures ModError(owners[key].name, creator(key).incompatibleOwner) in CreateErrors(owners, order, creator)
  {
    var n := |order| - 1;
    assert order == order[..n] + [order[n]];
    if key != order[n] {
      FailureReported(owners, order[..n], creator, key);
    }
  }

  lemma {:induction false} VerifyCreatesNothing(owners: Owners, recorded: seq<ClusterModule>, answers: seq<Existence>, key: string)
    requires |answers| == |recorded|
    ensures multiset(VerifyAll(owners, recorded, answers).calls)[Create(key)] == 0
  {
    if recorded != [] {
      var n := |recorded| - 1;
      VerifyCreatesNothing(owners, recorded[..n], answers[..n], key);
    }
  }

  function CreatesFor(order: seq<string>): seq<Call> {
    seq(|order|, i requires 0 <= i < |order| => Create(order[i]))
  }

  /** The second loop calls Create once for each pending owner, in the order of the enumeration, and nothing else. */
  lemma {:induction false} CreateCalls(p: Progress, order: seq<string>, creator: Creator)
    requires forall i :: 0 <= i < |order| ==> order[i] in p.pending
    ensures CreateAll(p, order, creator).calls == p.calls + CreatesFor(order)
  {
    if order != [] {
      var n := |order| - 1;
      CreateCalls(p, order[..n], creator);
      assert CreatesFor(order) == CreatesFor(order[..n]) + [Create(order[n])];
    }
  }

  lemma CreateCallCount(order: seq<string>, key: string)
    requires Distinct(order)
    ensures multiset(CreatesFor(order))[Create(key)] == if key in order then 1 else 0
  {
    var calls := CreatesFor(order);
    assert forall i :: 0 <= i < |order| ==> calls[i] == Create(order[i]);
    DistinctOnce(calls, Create(key));
    if key in order {
      var i :| 0 <= i < |order| && order[i] == key;
      assert calls[i] == Create(key);
    }
  }

  /** A live owner keeps a module exactly when some module recorded for it was not confirmed missing. */
  lemma KeptExact(owners: Owners, recorded: seq<ClusterModule>, answers: seq<Existence>, key: string)
    requires WellKeyed(owners) && |answers| == |recorded| && key in owners
    ensures HasEntry(VerifyAll(owners, recorded, answers).modules, key) <==>
            exists i :: 0 <= i < |recorded| && ModuleKey(recorded[i]) == key && answers[i] != Missing
  {
    VerifySplits(owners, recorded, answers);
    VerifyExact(owners, recorded, answers);
  }

  /** Create runs for an owner only if every module recorded for it was looked up and confirmed missing. */
  lemma CreatedOnlyIfMissing(owners: Owners, recorded: seq<ClusterModule>, answers: seq<Existence>, creator: Creator, result: Progress, key: string)
    requires |answers| == |recorded| && Reconciled(owners, recorded, answers, creator, result)
    requires Create(key) in result.calls
    ensures key in owners
    ensures forall i :: 0 <= i < |recorded| && ModuleKey(recorded[i]) == key ==>
              answers[i] == Missing && Check(key, recorded[i].moduleUUID) in result.calls
  {
    var order := ReconcileExact(owners, recorded, answers, creator, result);
    VerifyCreatesNothing(owners, recorded, answers, key);
    assert Create(key) in CreatesFor(order);
    assert key in order;
    forall i | 0 <= i < |recorded| && ModuleKey(recorded[i]) == key
      ensures answers[i] == Missing && Check(key, recorded[i].moduleUUID) in result.calls
    {
      assert LookedUp(owners, recorded, answers, i);
      NothingDropped(owners, recorded, answers, creator, result, i);
    }
  }

  /**
    No recorded module is silently dropped: a record that is looked up is kept unless it is confirmed missing, and Remove
    is called for every other one.
   */
  lemma NothingDropped(owners: Owners, recorded: seq<ClusterModule>, answers: seq<Existence>, creator: Creator, result: Progress, i: nat)
    requires |answers| == |recorded| && i < |recorded|
    requires Reconciled(owners, recorded, answers, creator, result)
    ensures var key, uuid := ModuleKey(recorded[i]), recorded[i].moduleUUID;
            if LookedUp(owners, recorded, answers, i) then
              && Check(key, uuid) in result.calls
              && (answers[i] != Missing ==> Entry(owners[key], uuid) in result.modules)
            else Remove(uuid) in result.calls
  {
    var order := ReconcileExact(owners, recorded, answers, creator, result);
    CallFor(owners, recorded, answers, i);
    assert result.calls[i] == VerifyAll(owners, recorded, answers).calls[i];
    if FirstFound(owners, recorded, answers, i) {
      KeptEntry(owners, recorded, answers, i);
    }
  }

  ghost predicate DistinctUUIDs(recorded: seq<ClusterModule>) {
    forall i, j :: 0 <= i < j < |recorded| ==> recorded[i].moduleUUID != recorded[j].moduleUUID
  }

  /** A UUID is removed exactly when some record of it is not looked up. */
  lemma RemovedExact(owners: Owners, recorded: seq<ClusterModule>, answers: seq<Existence>, creator: Creator, result: Progress, uuid: string)
    requires |answers| == |recorded| && Reconciled(owners, recorded, answers, creator, result)
    ensures Remove(uuid) in result.calls <==>
            exists i :: 0 <= i < |recorded| && recorded[i].moduleUUID == uuid && !LookedUp(owners, recorded, answers, i)
  {
    var order := ReconcileExact(owners, recorded, answers, creator, result);
    var calls := VerifyAll(owners, recorded, answers).calls;
    assert forall c :: c in CreatesFor(order) ==> c.Create?;
    if recorded != [] {
      CallFor(owners, recorded, answers, 0);
    }
    forall i | 0 <= i < |recorded|
      ensures calls[i] == Remove(uuid) <==> recorded[i].moduleUUID == uuid && !LookedUp(owners, recorded, answers, i)
    {
      CallFor(owners, recorded, answers, i);
    }
  }

  /** With distinct recorded UUIDs, a module that the first loop keeps is never removed. */
  lemma KeptNotRemoved(owners: Owners, recorded: seq<ClusterModule>, answers: seq<Existence>, creator: Creator, result: Progress, uuid: string)
    requires |answers| == |recorded| && Reconciled(owners, recorded, answers, creator, result)
    requires DistinctUUIDs(recorded) && Recorded(VerifyAll(owners, recorded, answers).modules, uuid)
    ensures Remove(uuid) !in result.calls
  {
    VerifyExact(owners, recorded, answers);
    RemovedExact(owners, recorded, answers, creator, result, uuid);
    var k :| 0 <= k < |KeptEntries(owners, recorded, answers)| && KeptEntries(owners, recorded, answers)[k].moduleUUID == uuid;
    var i := KeptFrom(owners, recorded, answers, k);
    assert forall j :: 0 <= j < |recorded| && recorded[j].moduleUUID == uuid ==> j == i;
  }

  /** Listing one module twice keeps it in the result and has it removed. */
  lemma DuplicateIsRemoved(owners: Owners, mod: ClusterModule, creator: Creator, result: Progress)
    requires ModuleKey(mod) in owners && Reconciled(owners, [mod, mod], [Exists, Exists], creator, result)
    ensures Entry(owners[ModuleKey(mod)], mod.moduleUUID) in result.modules
    ensures Remove(mod.moduleUUID) in result.calls
  {
    var recorded, answers := [mod, mod], [Exists, Exists];
    NothingDropped(owners, recorded, answers, creator, result, 0);
    assert recorded[..1][0] == mod && answers[..1][0] == Exists;
    NothingDropped(owners, recorded, answers, creator, result, 1);
  }

  lemma {:induction false} CreateKeeps(p: Progress, order: seq<string>, creator: Creator)
    requires forall i :: 0 <= i < |order| ==> order[i] in p.pending
    ensures p.modules <= CreateAll(p, order, creator).modules
    ensures (forall i :: 0 <= i < |order| ==> creator(order[i]).CreateFailed? || creator(order[i]).uuid == "") ==>
              CreateAll(p, order, creator).modules == p.modules
  {
    if order != [] {
      CreateKeeps(p, order[..|order| - 1], creator);
    }
  }

  /** A list of one entry per live owner, none of which is found missing, comes out unchanged and in order. */
  lemma {:induction false} VerifyFixpoint(owners: Owners, modules: seq<ClusterModule>, answers: seq<Existence>)
    requires WellKeyed(owners) && DistinctKeys(modules) && EntriesOf(modules, owners)
    requires |answers| == |modules| && forall i :: 0 <= i < |answers| ==> answers[i] != Missing
    ensures VerifyAll(owners, modules, answers).modules == modules
  {
    if modules != [] {
      var n := |modules| - 1;
      PrefixEntries(owners, modules, n);
      VerifyFixpoint(owners, modules[..n], answers[..n]);
      VerifySplits(owners, modules[..n], answers[..n]);
      var p, mod := VerifyAll(owners, modules[..n], answers[..n]), modules[n];
      assert ModuleKey(mod) in p.pending && p.pending[ModuleKey(mod)] == owners[ModuleKey(mod)];
      VerifyKeeps(p, mod, answers[n]);
      assert modules == modules[..n] + [mod];
    }
  }

  lemma PrefixEntries(owners: Owners, modules: seq<ClusterModule>, n: nat)
    requires DistinctKeys(modules) && EntriesOf(modules, owners) && n < |modules|
    ensures DistinctKeys(modules[..n]) && EntriesOf(modules[..n], owners)
    ensures !HasEntry(modules[..n], ModuleKey(modules[n]))
    ensures modules[n] == Entry(owners[ModuleKey(modules[n])], modules[n].moduleUUID)
  {
  }

  lemma VerifyKeeps(p: Progress, mod: ClusterModule, answer: Existence)
    requires ModuleKey(mod) in p.pending && answer != Missing
    ensures Verify(p, mod, answer).modules == p.modules + [Entry(p.pending[ModuleKey(mod)], mod.moduleUUID)]
  {
  }

  /**
    Fixpoint: if the owners are unchanged, every recorded module still exists (or cannot be checked) and no further
    module gets created, a second reconcile returns the same list in the same order.
   */
  lemma SecondReconcile(
    owners: Owners, recorded: seq<ClusterModule>, answers: seq<Existence>, creator: Creator, first: Progress,
    answers': seq<Existence>, creator': Creator, second: Progress)
    requires WellKeyed(owners) && OneControlPlane(owners) && |answers| == |recorded|
    requires Reconciled(owners, recorded, answers, creator, first)
    requires |answers'| == |first.modules| && forall i :: 0 <= i < |answers'| ==> answers'[i] != Missing
    requires forall key :: key in owners ==> creator'(key).CreateFailed? || creator'(key).uuid == ""
    requires Reconciled(owners, first.modules, answers', creator', second)
    ensures second.modules == first.modules
  {
    OneEntryPerOwner(owners, recorded, answers, creator, first);
    assert EntriesOf(first.modules, owners);
    VerifyFixpoint(owners, first.modules, answers');
    VerifySplits(owners, first.modules, answers');
    var p := VerifyAll(owners, first.modules, answers');
    var order :| Enumerates(order, p.pending.Keys) && second == CreateAll(p, order, creator');
    CreateKeeps(p, order, creator');
  }
}
