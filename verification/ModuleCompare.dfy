/**
  `clustermodule.Compare`: both lists are stably sorted in place by target name and then compared position by position.
 */
module ModuleCompare {
  import opened Common
  import opened Ordering
  import opened ClusterModules

  /** A missing control-plane flag reads as false. */
  function Normalize(mod: ClusterModule): ClusterModule {
    mod.(controlPlane := Some(mod.controlPlane == Some(true)))
  }

  predicate Same(a: ClusterModule, b: ClusterModule) {
    Normalize(a) == Normalize(b)
  }

  /** Same modules agree in target, UUID and whether they are a control plane's. */
  lemma SameExact(a: ClusterModule, b: ClusterModule)
    ensures Same(a, b) <==>
            && a.targetObjectName == b.targetObjectName && a.moduleUUID == b.moduleUUID
            && (a.controlPlane == Some(true) <==> b.controlPlane == Some(true))
  {
  }

  predicate AllSame(a: seq<ClusterModule>, b: seq<ClusterModule>) {
    |a| == |b| && forall i :: 0 <= i < |a| ==> Same(a[i], b[i])
  }

  // ---------------------------------------------------------------------------------------------
  // Stable sorting
  // ---------------------------------------------------------------------------------------------

  /** Puts `mod` after every module whose name is not greater. */
  function Insert(s: seq<ClusterModule>, mod: ClusterModule): seq<ClusterModule> {
    if s == [] then [mod]
    else if Less(mod.targetObjectName, s[|s| - 1].targetObjectName) then Insert(s[..|s| - 1], mod) + [s[|s| - 1]]
    else s + [mod]
  }

  function StableSort(s: seq<ClusterModule>): seq<ClusterModule> {
    if s == [] then [] else Insert(StableSort(s[..|s| - 1]), s[|s| - 1])
  }

  ghost predicate NameSorted(s: seq<ClusterModule>) {
    forall i, j :: 0 <= i < j < |s| ==> !Less(s[j].targetObjectName, s[i].targetObjectName)
  }

  /** The modules of one target, in list order. */
  function OfTarget(s: seq<ClusterModule>, name: string): seq<ClusterModule> {
    if s == [] then []
    else OfTarget(s[..|s| - 1], name) + if s[|s| - 1].targetObjectName == name then [s[|s| - 1]] else []
  }

  /** Both lists hold the same modules for one target, in the same order. */
  predicate AgreeOn(a: seq<ClusterModule>, b: seq<ClusterModule>, name: string) {
    AllSame(OfTarget(a, name), OfTarget(b, name))
  }

  lemma OfTargetSnoc(s: seq<ClusterModule>, mod: ClusterModule, name: string)
    ensures OfTarget(s + [mod], name) == OfTarget(s, name) + if mod.targetObjectName == name then [mod] else []
  {
    assert (s + [mod])[..|s|] == s;
  }

  lemma {:induction false} InsertElements(s: seq<ClusterModule>, mod: ClusterModule)
    ensures multiset(Insert(s, mod)) == multiset(s) + multiset{mod}
  {
    if s != [] {
      var front, last := s[..|s| - 1], s[|s| - 1];
      assert s == front + [last];
      InsertElements(front, mod);
    }
  }

  lemma {:induction false} InsertSorted(s: seq<ClusterModule>, mod: ClusterModule)
    requires NameSorted(s)
    ensures NameSorted(Insert(s, mod))
  {
    if s != [] {
      var front, last := s[..|s| - 1], s[|s| - 1];
      if Less(mod.targetObjectName, last.targetObjectName) {
        InsertSorted(front, mod);
        InsertElements(front, mod);
        var r := Insert(front, mod);
        forall i | 0 <= i < |r| ensures !Less(last.targetObjectName, r[i].targetObjectName) {
          assert r[i] in multiset(r);
          if r[i] == mod {
            NotBoth(mod.targetObjectName, last.targetObjectName);
          } else {
            assert r[i] in front;
          }
        }
      } else {
        forall i | 0 <= i < |s| ensures !Less(mod.targetObjectName, s[i].targetObjectName) {
          if Less(mod.targetObjectName, s[i].targetObjectName) {
            LessTotal(s[i].targetObjectName, last.targetObjectName);
            if Less(s[i].targetObjectName, last.targetObjectName) {
              LessTransitive(mod.targetObjectName, s[i].targetObjectName, last.targetObjectName);
            }
          }
        }
      }
    }
  }

  lemma NotBoth(a: string, b: string)
    requires Less(a, b)
    ensures !Less(b, a)
  {
    if Less(b, a) {
      LessTransitive(a, b, a);
      LessIrreflexive(a);
    }
  }

  /** Inserting at the end or further left does not reorder modules of one target. */
  lemma {:induction false} InsertStable(s: seq<ClusterModule>, mod: ClusterModule, name: string)
    requires NameSorted(s)
    ensures OfTarget(Insert(s, mod), name) == OfTarget(s + [mod], name)
  {
    OfTargetSnoc(s, mod, name);
    if s == [] {
      assert s + [mod] == [mod];
    } else {
      var front, last := s[..|s| - 1], s[|s| - 1];
      assert s == front + [last];
      if Less(mod.targetObjectName, last.targetObjectName) {
        LessIrreflexive(mod.targetObjectName);
        InsertStable(front, mod, name);
        OfTargetSnoc(front, mod, name);
        OfTargetSnoc(front, last, name);
        OfTargetSnoc(Insert(front, mod), last, name);
      }
    }
  }

  /** Sorted, a permutation, and stable. */
  lemma {:induction false} StableSortExact(s: seq<ClusterModule>)
    ensures var r := StableSort(s);
            && NameSorted(r)
            && multiset(r) == multiset(s)
            && |r| == |s|
            && forall name :: OfTarget(r, name) == OfTarget(s, name)
  {
    if s != [] {
      var front, last := s[..|s| - 1], s[|s| - 1];
      assert s == front + [last];
      StableSortExact(front);
      InsertSorted(StableSort(front), last);
      InsertElements(StableSort(front), last);
      SameSize(StableSort(s), s);
      forall name ensures OfTarget(StableSort(s), name) == OfTarget(s, name) {
        InsertStable(StableSort(front), last, name);
        OfTargetSnoc(StableSort(front), last, name);
        OfTargetSnoc(front, last, name);
      }
    }
  }

  lemma SameSize<T>(a: seq<T>, b: seq<T>)
    requires multiset(a) == multiset(b)
    ensures |a| == |b|
  {
    assert |multiset(a)| == |a| && |multiset(b)| == |b|;
  }

  /** The library call `sort.SliceStable`, by target name: the slice is overwritten with its stable sort. */
  method SortInPlace(mods: array<ClusterModule>)
    modifies mods
    ensures mods[..] == StableSort(old(mods[..]))
  {
    var sorted := StableSort(mods[..]);
    StableSortExact(mods[..]);
    forall k | 0 <= k < mods.Length {
      mods[k] := sorted[k];
    }
  }

  // ---------------------------------------------------------------------------------------------
  // Comparing
  // ---------------------------------------------------------------------------------------------

  predicate CompareResult(a: seq<ClusterModule>, b: seq<ClusterModule>) {
    |a| == |b| && AllSame(StableSort(a), StableSort(b))
  }

  lemma {:induction false} SortedUnmoved(s: seq<ClusterModule>)
    requires NameSorted(s)
    ensures StableSort(s) == s
  {
    if s != [] {
      SortedUnmoved(s[..|s| - 1]);
      assert s == s[..|s| - 1] + [s[|s| - 1]];
    }
  }

  /** Both slices, which may be the same one, come back sorted, unless their lengths already differ. */
  method Compare(oldMods: array<ClusterModule>, newMods: array<ClusterModule>) returns (same: bool)
    modifies oldMods, newMods
    ensures same == CompareResult(old(oldMods[..]), old(newMods[..]))
    ensures oldMods.Length == newMods.Length ==>
              oldMods[..] == StableSort(old(oldMods[..])) && newMods[..] == StableSort(old(newMods[..]))
    ensures oldMods.Length != newMods.Length ==>
              oldMods[..] == old(oldMods[..]) && newMods[..] == old(newMods[..])
  {
    if oldMods.Length != newMods.Length {
      return false;
    }
    SortInPlace(oldMods);
    StableSortExact(old(oldMods[..]));
    SortedUnmoved(oldMods[..]);
    SortInPlace(newMods);
    same := SameInOrder(oldMods[..], newMods[..]);
  }

  /** The comparison loop of Compare. */
  method SameInOrder(a: seq<ClusterModule>, b: seq<ClusterModule>) returns (same: bool)
    requires |a| == |b|
    ensures same == AllSame(a, b)
  {
    for i := 0 to |a|
      invariant forall j :: 0 <= j < i ==> Same(a[j], b[j])
    {
      var o, n := a[i], b[i];
      if (o.controlPlane == Some(true)) == (n.controlPlane == Some(true))
         && o.targetObjectName == n.targetObjectName && o.moduleUUID == n.moduleUUID
      {
        continue;
      }
      assert !Same(a[i], b[i]);
      return false;
    }
    return true;
  }

  lemma {:induction false} OfTargetNames(s: seq<ClusterModule>, name: string)
    ensures forall i :: 0 <= i < |OfTarget(s, name)| ==> OfTarget(s, name)[i].targetObjectName == name
    ensures forall m :: m in OfTarget(s, name) <==> m in s && m.targetObjectName == name
  {
    if s != [] {
      OfTargetNames(s[..|s| - 1], name);
      assert s == s[..|s| - 1] + [s[|s| - 1]];
    }
  }

  /** Pointwise equal lists have pointwise equal sublists for each target. */
  lemma {:induction false} AllSameOfTarget(a: seq<ClusterModule>, b: seq<ClusterModule>, name: string)
    requires AllSame(a, b)
    ensures AgreeOn(a, b, name)
  {
    if a != [] {
      var n := |a| - 1;
      AllSameOfTarget(a[..n], b[..n], name);
      assert Same(a[n], b[n]);
    }
  }

  /** Two name-sorted lists that agree target by target agree position by position. */
  lemma {:induction false} SortedByTarget(a: seq<ClusterModule>, b: seq<ClusterModule>)
    requires NameSorted(a) && NameSorted(b)
    requires forall name :: AgreeOn(a, b, name)
    ensures AllSame(a, b)
    decreases |a|
  {
    if a == [] {
      assert b != [] ==> AgreeOn(a, b, b[|b| - 1].targetObjectName);
      if b != [] {
        LastOfTarget(b);
      }
    } else {
      LastNamesAgree(a, b);
      var a', b' := a[..|a| - 1], b[..|b| - 1];
      LastSame(a, b);
      forall name ensures AgreeOn(a', b', name) {
        assert AgreeOn(a, b, name);
        DropLast(a, b, name);
      }
      SortedByTarget(a', b');
    }
  }

  lemma LastSame(a: seq<ClusterModule>, b: seq<ClusterModule>)
    requires a != [] && b != [] && a[|a| - 1].targetObjectName == b[|b| - 1].targetObjectName
    requires AgreeOn(a, b, a[|a| - 1].targetObjectName)
    ensures Same(a[|a| - 1], b[|b| - 1])
  {
    LastOfTarget(a);
    LastOfTarget(b);
  }

  lemma DropLast(a: seq<ClusterModule>, b: seq<ClusterModule>, name: string)
    requires a != [] && b != [] && a[|a| - 1].targetObjectName == b[|b| - 1].targetObjectName
    requires AgreeOn(a, b, name)
    ensures AgreeOn(a[..|a| - 1], b[..|b| - 1], name)
  {
    var p, q := OfTarget(a, name), OfTarget(b, name);
    var p', q' := OfTarget(a[..|a| - 1], name), OfTarget(b[..|b| - 1], name);
    forall i | 0 <= i < |p'| ensures |p'| == |q'| && Same(p'[i], q'[i]) {
      assert p[i] == p'[i] && q[i] == q'[i];
    }
  }

  lemma LastOfTarget(s: seq<ClusterModule>)
    requires s != []
    ensures var t := OfTarget(s, s[|s| - 1].targetObjectName); t != [] && t[|t| - 1] == s[|s| - 1]
  {
  }

  /** The greatest name of a sorted list is that of its last module, so both lists end in the same target. */
  lemma LastNamesAgree(a: seq<ClusterModule>, b: seq<ClusterModule>)
    requires NameSorted(a) && NameSorted(b) && a != []
    requires forall name :: AgreeOn(a, b, name)
    ensures b != [] && a[|a| - 1].targetObjectName == b[|b| - 1].targetObjectName
  {
    var x := a[|a| - 1].targetObjectName;
    LastOfTarget(a);
    assert AgreeOn(a, b, x);
    OfTargetNames(b, x);
    assert OfTarget(b, x)[0] in b;
    var y := b[|b| - 1].targetObjectName;
    LastOfTarget(b);
    assert AgreeOn(a, b, y);
    OfTargetNames(a, y);
    assert OfTarget(a, y)[0] in a;
    Greatest(b, OfTarget(b, x)[0]);
    Greatest(a, OfTarget(a, y)[0]);
    LessTotal(x, y);
  }

  lemma Greatest(s: seq<ClusterModule>, m: ClusterModule)
    requires NameSorted(s) && m in s
    ensures !Less(s[|s| - 1].targetObjectName, m.targetObjectName)
  {
    var i :| 0 <= i < |s| && s[i] == m;
    LessIrreflexive(m.targetObjectName);
  }

  /** Exact meaning: Compare accepts precisely the lists that hold the same modules for each target in the same order. */
  lemma CompareExact(a: seq<ClusterModule>, b: seq<ClusterModule>)
    ensures CompareResult(a, b) <==> forall name :: AgreeOn(a, b, name)
  {
    StableSortExact(a);
    StableSortExact(b);
    var sa, sb := StableSort(a), StableSort(b);
    if CompareResult(a, b) {
      forall name ensures AgreeOn(a, b, name) {
        AllSameOfTarget(sa, sb, name);
        assert OfTarget(sa, name) == OfTarget(a, name) && OfTarget(sb, name) == OfTarget(b, name);
      }
    }
    if forall name :: AgreeOn(a, b, name) {
      forall name ensures AgreeOn(sa, sb, name) {
        assert AgreeOn(a, b, name);
      }
      SortedByTarget(sa, sb);
    }
  }

  function Normalized(s: seq<ClusterModule>): (r: seq<ClusterModule>)
    ensures |r| == |s|
  {
    seq(|s|, i requires 0 <= i < |s| => Normalize(s[i]))
  }

  /** Soundness: an accepted pair is a permutation, up to missing flags. */
  lemma CompareSound(a: seq<ClusterModule>, b: seq<ClusterModule>)
    requires CompareResult(a, b)
    ensures multiset(Normalized(a)) == multiset(Normalized(b))
  {
    StableSortExact(a);
    StableSortExact(b);
    NormalizedSort(a);
    NormalizedSort(b);
    assert Normalized(StableSort(a)) == Normalized(StableSort(b));
  }

  lemma NormalizedSnoc(s: seq<ClusterModule>, mod: ClusterModule)
    ensures Normalized(s + [mod]) == Normalized(s) + [Normalize(mod)]
  {
  }

  lemma {:induction false} NormalizedInsert(s: seq<ClusterModule>, mod: ClusterModule)
    ensures multiset(Normalized(Insert(s, mod))) == multiset(Normalized(s)) + multiset{Normalize(mod)}
  {
    if s == [] {
      assert Normalized([mod]) == [Normalize(mod)];
    } else {
      var front, last := s[..|s| - 1], s[|s| - 1];
      assert s == front + [last];
      NormalizedSnoc(s, mod);
      NormalizedSnoc(front, last);
      NormalizedInsert(front, mod);
      NormalizedSnoc(Insert(front, mod), last);
    }
  }

  /** Sorting permutes the normalized modules. */
  lemma {:induction false} NormalizedSort(s: seq<ClusterModule>)
    ensures multiset(Normalized(StableSort(s))) == multiset(Normalized(s))
  {
    if s != [] {
      var front, last := s[..|s| - 1], s[|s| - 1];
      assert s == front + [last];
      NormalizedSort(front);
      NormalizedInsert(StableSort(front), last);
      NormalizedSnoc(front, last);
    }
  }

  ghost predicate DistinctTargets(s: seq<ClusterModule>) {
    forall i, j :: 0 <= i < j < |s| ==> s[i].targetObjectName != s[j].targetObjectName
  }

  lemma {:induction false} DistinctOfTarget(s: seq<ClusterModule>, name: string)
    requires DistinctTargets(s)
    ensures |OfTarget(s, name)| <= 1
  {
    if s != [] {
      var n := |s| - 1;
      DistinctOfTarget(s[..n], name);
      OfTargetNames(s[..n], name);
      if OfTarget(s[..n], name) != [] {
        assert OfTarget(s[..n], name)[0] in s[..n];
      }
    }
  }

  /** Completeness for distinct targets: every permutation, up to missing flags, is accepted. */
  lemma CompareComplete(a: seq<ClusterModule>, b: seq<ClusterModule>)
    requires DistinctTargets(a) && DistinctTargets(b)
    requires multiset(Normalized(a)) == multiset(Normalized(b))
    ensures CompareResult(a, b)
  {
    forall name ensures AgreeOn(a, b, name) {
      DistinctOfTarget(a, name);
      DistinctOfTarget(b, name);
      if OfTarget(a, name) != [] {
        OfTargetMatched(a, b, name);
      }
      if OfTarget(b, name) != [] {
        OfTargetMatched(b, a, name);
      }
    }
    CompareExact(a, b);
  }

  lemma OfTargetMatched(a: seq<ClusterModule>, b: seq<ClusterModule>, name: string)
    requires multiset(Normalized(a)) == multiset(Normalized(b))
    requires |OfTarget(a, name)| == 1 && |OfTarget(b, name)| <= 1
    ensures |OfTarget(b, name)| == 1 && Same(OfTarget(a, name)[0], OfTarget(b, name)[0])
  {
    var m := OfTarget(a, name)[0];
    assert m in a && m.targetObjectName == name by {
      OfTargetNames(a, name);
      assert m in OfTarget(a, name);
    }
    var j := NormalMatched(a, b, m);
    OnlyOfTarget(b, name, j);
  }

  lemma OnlyOfTarget(s: seq<ClusterModule>, name: string, j: nat)
    requires |OfTarget(s, name)| <= 1 && j < |s| && s[j].targetObjectName == name
    ensures OfTarget(s, name) == [s[j]]
  {
    OfTargetNames(s, name);
    assert s[j] in OfTarget(s, name);
  }

  lemma NormalMatched(a: seq<ClusterModule>, b: seq<ClusterModule>, m: ClusterModule) returns (j: nat)
    requires multiset(Normalized(a)) == multiset(Normalized(b)) && m in a
    ensures j < |b| && Same(b[j], m)
  {
    var i :| 0 <= i < |a| && a[i] == m;
    var x, y := Normalized(a), Normalized(b);
    assert x[i] in multiset(x);
    assert x[i] in y;
    j :| 0 <= j < |y| && y[j] == x[i];
  }

  /**
    A control plane and a MachineDeployment of the same name make Compare sensitive to order: listing the same two
    modules the other way round is reported as a change.
   */
  lemma SameNameOrderMatters(name: string, u: string, v: string)
    ensures var kcp, md := ClusterModule(Some(true), name, u), ClusterModule(Some(false), name, v);
            !CompareResult([kcp, md], [md, kcp])
  {
    var kcp, md := ClusterModule(Some(true), name, u), ClusterModule(Some(false), name, v);
    CompareExact([kcp, md], [md, kcp]);
    OfTargetPair(kcp, md);
    OfTargetPair(md, kcp);
    assert !Same([kcp, md][0], [md, kcp][0]);
    assert !AgreeOn([kcp, md], [md, kcp], name);
  }

  lemma OfTargetPair(a: ClusterModule, b: ClusterModule)
    requires a.targetObjectName == b.targetObjectName
    ensures OfTarget([a, b], a.targetObjectName) == [a, b]
  {
    assert [a, b] == [] + [a] + [b];
    OfTargetSnoc([], a, a.targetObjectName);
    OfTargetSnoc([a], b, a.targetObjectName);
    assert [] + [a] == [a];
  }
}
