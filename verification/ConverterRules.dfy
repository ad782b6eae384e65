/** Invariants of the converter registry under every sequence of registrations, and what they give conversions. */
module ConverterRules {
  import opened Common
  import opened Converter

  /** GVK and type maps are inverse to each other, and the hub flags cover exactly the registered GVKs. */
  ghost predicate Consistent(r: Registry) {
    && (forall gvk :: gvk in r.gvkToType ==> r.gvkToType[gvk] in r.typeToGVK && r.typeToGVK[r.gvkToType[gvk]] == gvk)
    && (forall t :: t in r.typeToGVK ==> r.typeToGVK[t] in r.gvkToType && r.gvkToType[r.typeToGVK[t]] == t)
    && r.hubTypes.Keys == r.gvkToType.Keys
    && (forall gvk :: gvk in r.gvkToType ==> gvk.group != "" && gvk.version != "" && gvk.kind == r.gvkToType[gvk].name)
    && (forall gvk :: IsHubGVK(r, gvk) ==> r.gvkToType[gvk].convertible || IsListKind(gvk.kind))
  }

  /** Two registered versions of one non-list kind. */
  predicate Siblings(r: Registry, a: GroupVersionKind, b: GroupVersionKind) {
    && a in r.gvkToType && b in r.gvkToType
    && a.group == b.group && a.kind == b.kind && a.version != b.version && !IsListKind(a.kind)
  }

  ghost predicate Symmetric(r: Registry) {
    forall a, b :: FuncOf(r, a, b).Some? ==> FuncOf(r, b, a).Some? && Siblings(r, a, b)
  }

  ghost predicate WellFormed(r: Registry) {
    Consistent(r) && Symmetric(r)
  }

  /** Everything registered in `r` is registered unchanged in `r'`. */
  ghost predicate Extends(r: Registry, r': Registry) {
    && (forall gvk :: gvk in r.gvkToType ==> gvk in r'.gvkToType && r'.gvkToType[gvk] == r.gvkToType[gvk])
    && (forall t :: t in r.typeToGVK ==> t in r'.typeToGVK && r'.typeToGVK[t] == r.typeToGVK[t])
    && (forall a, b :: FuncOf(r, a, b).Some? ==> FuncOf(r', a, b) == FuncOf(r, a, b))
  }

  lemma BindKeeps(r: Registry, gvk: GroupVersionKind, t: GoType, hub: bool)
    requires WellFormed(r) && !Clashes(r, gvk, t)
    requires gvk.group != "" && gvk.version != "" && gvk.kind == t.name
    requires hub ==> t.convertible || IsListKind(t.name)
    ensures WellFormed(Bind(r, gvk, t, hub)) && Extends(r, Bind(r, gvk, t, hub))
  {
    BindConsistent(r, gvk, t, hub);
    BindSymmetric(r, gvk, t, hub);
  }

  lemma BindConsistent(r: Registry, gvk: GroupVersionKind, t: GoType, hub: bool)
    requires Consistent(r) && !Clashes(r, gvk, t)
    requires gvk.group != "" && gvk.version != "" && gvk.kind == t.name
    requires hub ==> t.convertible || IsListKind(t.name)
    ensures Consistent(Bind(r, gvk, t, hub))
  {
  }

  lemma BindSymmetric(r: Registry, gvk: GroupVersionKind, t: GoType, hub: bool)
    requires Symmetric(r) && !Clashes(r, gvk, t)
    ensures Symmetric(Bind(r, gvk, t, hub)) && Extends(r, Bind(r, gvk, t, hub))
  {
    var r' := Bind(r, gvk, t, hub);
    forall a, b ensures FuncOf(r', a, b) == FuncOf(r, a, b) {
    }
    forall a, b | FuncOf(r', a, b).Some? ensures FuncOf(r', b, a).Some? && Siblings(r', a, b) {
      assert FuncOf(r, a, b).Some?;
    }
  }

  lemma {:induction false} AddHubsKeeps(r: Registry, group: string, version: string, objs: seq<Object>)
    requires WellFormed(r) && group != "" && version != ""
    ensures WellFormed(AddHubs(r, group, version, objs).0) && Extends(r, AddHubs(r, group, version, objs).0)
    decreases |objs|
  {
    if objs != [] {
      var next := AddHubType(r, group, version, objs[0]);
      if next.Some? {
        var t := objs[0].goType;
        BindKeeps(r, GroupVersionKind(group, version, t.name), t, true);
        AddHubsKeeps(next.value, group, version, objs[1..]);
        ExtendsTransitive(r, next.value, AddHubs(r, group, version, objs).0);
      }
    }
  }

  lemma ExtendsTransitive(a: Registry, b: Registry, c: Registry)
    requires Extends(a, b) && Extends(b, c)
    ensures Extends(a, c)
  {
  }

  /** What one registration of a function does: one pair may become known, and nothing known changes. */
  lemma AddFuncExact(r: Registry, src: GroupVersionKind, dst: GroupVersionKind, f: ConvertFunc)
    ensures var (r', ok) := AddFunc(r, src, dst, f);
            && r'.gvkToType == r.gvkToType && r'.typeToGVK == r.typeToGVK && r'.hubTypes == r.hubTypes
            && (ok <==> FuncOf(r, src, dst).None? || FuncOf(r, src, dst) == Some(f))
            && forall a, b :: FuncOf(r', a, b) == if ok && a == src && b == dst then Some(f) else FuncOf(r, a, b)
  {
  }

  /**
    Adding a conversion keeps the registry well formed even when it fails half way: the reverse function can only
    clash if the pair was already known in both directions.
   */
  lemma AddConversionKeeps(r: Registry, hub: Object, spokeVersion: string, spoke: Object, hubToSpoke: ConvertFunc, spokeToHub: ConvertFunc)
    requires WellFormed(r)
    ensures var r' := AddConversionTo(r, hub, spokeVersion, spoke, hubToSpoke, spokeToHub).0;
            WellFormed(r') && Extends(r, r')
  {
    var found := GroupVersionKindFor(r, hub);
    if found.Some? && spoke.Pointer? {
      var h, s := found.value, GroupVersionKind(found.value.group, spokeVersion, spoke.goType.name);
      if ValidPair(r, h, s, spoke.goType) {
        BindKeeps(r, s, spoke.goType, false);
        var bound := Bind(r, s, spoke.goType, false);
        PairAdded(bound, h, s, hubToSpoke, spokeToHub);
        ExtendsTransitive(r, bound, AddPair(bound, h, s, hubToSpoke, spokeToHub).0);
      }
    }
  }

  function AddPair(r: Registry, h: GroupVersionKind, s: GroupVersionKind, hubToSpoke: ConvertFunc, spokeToHub: ConvertFunc): (Registry, bool) {
    var (there, ok) := AddFunc(r, h, s, hubToSpoke);
    if !ok then (there, false) else AddFunc(there, s, h, spokeToHub)
  }

  lemma PairAdded(r: Registry, h: GroupVersionKind, s: GroupVersionKind, hubToSpoke: ConvertFunc, spokeToHub: ConvertFunc)
    requires WellFormed(r) && Siblings(r, h, s)
    ensures var r' := AddPair(r, h, s, hubToSpoke, spokeToHub).0;
            WellFormed(r') && Extends(r, r')
  {
    var (there, ok) := AddFunc(r, h, s, hubToSpoke);
    AddFuncExact(r, h, s, hubToSpoke);
    AddFuncExact(there, s, h, spokeToHub);
    var result := AddPair(r, h, s, hubToSpoke, spokeToHub);
    FuncsAdded(r, result.0, h, s, ok, result.1);
  }

  /** Both directions of a pair are added, or neither changes. */
  lemma FuncsAdded(r: Registry, r': Registry, h: GroupVersionKind, s: GroupVersionKind, firstOk: bool, bothOk: bool)
    requires WellFormed(r) && Siblings(r, h, s)
    requires r'.gvkToType == r.gvkToType && r'.typeToGVK == r.typeToGVK && r'.hubTypes == r.hubTypes
    requires forall a, b :: (a, b) != (h, s) && (a, b) != (s, h) ==> FuncOf(r', a, b) == FuncOf(r, a, b)
    requires FuncOf(r, h, s).Some? ==> FuncOf(r', h, s) == FuncOf(r, h, s)
    requires FuncOf(r, s, h).Some? ==> FuncOf(r', s, h) == FuncOf(r, s, h)
    requires bothOk ==> firstOk && FuncOf(r', s, h).Some?
    requires !bothOk && firstOk ==> FuncOf(r, s, h).Some?
    requires if firstOk then FuncOf(r', h, s).Some? else FuncOf(r', h, s) == FuncOf(r, h, s) && FuncOf(r', s, h) == FuncOf(r, s, h)
    ensures WellFormed(r') && Extends(r, r')
  {
    forall a, b | FuncOf(r', a, b).Some? ensures FuncOf(r', b, a).Some? && Siblings(r', a, b) {
      if (a, b) != (h, s) && (a, b) != (s, h) {
        assert FuncOf(r, a, b).Some?;
      }
    }
    forall a, b | FuncOf(r, a, b).Some? ensures FuncOf(r', a, b) == FuncOf(r, a, b) {
    }
    forall gvk ensures IsHubGVK(r', gvk) <==> IsHubGVK(r, gvk) {
    }
  }

  // ---------------------------------------------------------------------------------------------
  // What a registration registers
  // ---------------------------------------------------------------------------------------------

  /** The type and its GVK are not registered, or with each other. */
  predicate Bindable(r: Registry, gvk: GroupVersionKind, t: GoType) {
    (gvk in r.gvkToType ==> r.gvkToType[gvk] == t) && (t in r.typeToGVK ==> r.typeToGVK[t] == gvk)
  }

  predicate Bound(r: Registry, gvk: GroupVersionKind, t: GoType, hub: bool) {
    && gvk in r.gvkToType && r.gvkToType[gvk] == t && t in r.typeToGVK && r.typeToGVK[t] == gvk
    && gvk in r.hubTypes && r.hubTypes[gvk] == hub
  }

  /** The object's type is registered as a hub type of this version. */
  predicate BoundHub(r: Registry, group: string, version: string, obj: Object) {
    obj.Pointer? && Bound(r, GroupVersionKind(group, version, obj.goType.name), obj.goType, true)
  }

  predicate HubAddable(r: Registry, group: string, version: string, obj: Object) {
    && obj.Pointer? && (obj.goType.convertible || IsListKind(obj.goType.name))
    && Bindable(r, GroupVersionKind(group, version, obj.goType.name), obj.goType)
  }

  ghost predicate HubsStay(r: Registry, r': Registry) {
    forall gvk :: IsHubGVK(r, gvk) ==> IsHubGVK(r', gvk)
  }

  lemma AddHubExact(r: Registry, group: string, version: string, obj: Object)
    requires WellFormed(r) && group != "" && version != ""
    ensures var next := AddHubType(r, group, version, obj);
            && (next.Some? <==> HubAddable(r, group, version, obj))
            && (next.Some? ==>
                  && WellFormed(next.value) && HubsStay(r, next.value) && next.value.funcs == r.funcs
                  && Extends(r, next.value) && BoundHub(next.value, group, version, obj))
  {
    if HubAddable(r, group, version, obj) {
      BindKeeps(r, GroupVersionKind(group, version, obj.goType.name), obj.goType, true);
    }
  }

  lemma BoundStays(r: Registry, r': Registry, group: string, version: string, obj: Object)
    requires BoundHub(r, group, version, obj) && Extends(r, r') && HubsStay(r, r')
    ensures BoundHub(r', group, version, obj)
  {
    assert IsHubGVK(r, GroupVersionKind(group, version, obj.goType.name));
  }

  lemma {:induction false} AddHubsExact(r: Registry, group: string, version: string, objs: seq<Object>) returns (n: nat)
    requires WellFormed(r) && group != "" && version != ""
    ensures var (r', ok) := AddHubs(r, group, version, objs);
            && n <= |objs| && (ok <==> n == |objs|)
            && (n < |objs| ==> !HubAddable(r', group, version, objs[n]))
            && (forall i :: 0 <= i < n ==> BoundHub(r', group, version, objs[i]))
            && r'.funcs == r.funcs && HubsStay(r, r')
    decreases |objs|
  {
    n := 0;
    if objs != [] {
      AddHubExact(r, group, version, objs[0]);
      var next := AddHubType(r, group, version, objs[0]);
      if next.Some? {
        n := AddHubsExact(next.value, group, version, objs[1..]);
        AddHubsKeeps(next.value, group, version, objs[1..]);
        BoundStays(next.value, AddHubs(next.value, group, version, objs[1..]).0, group, version, objs[0]);
        n := n + 1;
      }
    }
  }

  /**
    Without group or version nothing is registered; otherwise hub types are registered in order up to the first that cannot
    be, whose position is `n`, and conversions stay as they are.
   */
  lemma AddHubTypesExact(r: Registry, group: string, version: string, objs: seq<Object>) returns (n: nat)
    requires WellFormed(r)
    ensures var (r', ok) := AddHubTypesTo(r, group, version, objs);
            if group == "" || version == "" then !ok && r' == r
            else
              && n <= |objs| && (ok <==> n == |objs|)
              && (n < |objs| ==> !HubAddable(r', group, version, objs[n]))
              && (forall i :: 0 <= i < n ==> BoundHub(r', group, version, objs[i]))
              && r'.funcs == r.funcs && HubsStay(r, r')
  {
    n := 0;
    if group != "" && version != "" {
      n := AddHubsExact(r, group, version, objs);
    }
  }

  /** The checks of a conversion registration, on the registered GVK of the hub. */
  predicate ConversionAddable(r: Registry, h: GroupVersionKind, spokeVersion: string, spoke: Object, hubToSpoke: ConvertFunc, spokeToHub: ConvertFunc) {
    && !IsListKind(h.kind) && h.group != "" && spokeVersion != "" && spokeVersion != h.version
    && spoke.Pointer? && spoke.goType.name == h.kind
    && var s := GroupVersionKind(h.group, spokeVersion, h.kind);
       && Bindable(r, s, spoke.goType)
       && (FuncOf(r, h, s).Some? ==> FuncOf(r, h, s) == Some(hubToSpoke))
       && (FuncOf(r, s, h).Some? ==> FuncOf(r, s, h) == Some(spokeToHub))
  }

  /**
    A conversion registration succeeds exactly when its checks pass and no other function is known for either direction;
    then the spoke type is bound as a spoke, each function is known for its own direction, and all else is as before.
   */
  lemma AddConversionExact(r: Registry, hub: Object, spokeVersion: string, spoke: Object, hubToSpoke: ConvertFunc, spokeToHub: ConvertFunc)
    ensures var (r', ok) := AddConversionTo(r, hub, spokeVersion, spoke, hubToSpoke, spokeToHub);
            && (ok <==> && hub.Pointer? && hub.goType in r.typeToGVK
                        && ConversionAddable(r, r.typeToGVK[hub.goType], spokeVersion, spoke, hubToSpoke, spokeToHub))
            && (ok ==> var h := r.typeToGVK[hub.goType];
                       var s := GroupVersionKind(h.group, spokeVersion, h.kind);
                       && Bound(r', s, spoke.goType, false)
                       && FuncOf(r', h, s) == Some(hubToSpoke) && FuncOf(r', s, h) == Some(spokeToHub)
                       && (forall a, b :: (a, b) != (h, s) && (a, b) != (s, h) ==> FuncOf(r', a, b) == FuncOf(r, a, b))
                       && (forall gvk :: gvk != s ==> (IsHubGVK(r', gvk) <==> IsHubGVK(r, gvk))))
  {
    var found := GroupVersionKindFor(r, hub);
    if found.Some? && spoke.Pointer? {
      var h, s := found.value, GroupVersionKind(found.value.group, spokeVersion, spoke.goType.name);
      if ValidPair(r, h, s, spoke.goType) {
        var bound := Bind(r, s, spoke.goType, false);
        var (there, ok) := AddFunc(bound, h, s, hubToSpoke);
        AddFuncExact(bound, h, s, hubToSpoke);
        AddFuncExact(there, s, h, spokeToHub);
        assert forall a, b :: FuncOf(bound, a, b) == FuncOf(r, a, b);
      }
    }
  }

  // ---------------------------------------------------------------------------------------------
  // Sequences of registrations
  // ---------------------------------------------------------------------------------------------

  datatype Call =
    | RegisterHubTypes(group: string, version: string, objs: seq<Object>)
    | RegisterConversion(hub: Object, spokeVersion: string, spoke: Object, hubToSpoke: ConvertFunc, spokeToHub: ConvertFunc)

  /** The registry after one call, successful or not. */
  function Apply(r: Registry, call: Call): Registry {
    match call
    case RegisterHubTypes(group, version, objs) => AddHubTypesTo(r, group, version, objs).0
    case RegisterConversion(hub, version, spoke, f, g) => AddConversionTo(r, hub, version, spoke, f, g).0
  }

  function ApplyAll(r: Registry, calls: seq<Call>): Registry
    decreases |calls|
  {
    if calls == [] then r else ApplyAll(Apply(r, calls[0]), calls[1..])
  }

  /** Any sequence of calls, failed ones included, keeps the registry well formed and never rebinds or replaces anything. */
  lemma {:induction false} RegistrationsKeep(r: Registry, calls: seq<Call>)
    requires WellFormed(r)
    ensures WellFormed(ApplyAll(r, calls)) && Extends(r, ApplyAll(r, calls))
    decreases |calls|
  {
    if calls != [] {
      var next := Apply(r, calls[0]);
      match calls[0] {
        case RegisterHubTypes(group, version, objs) =>
          if group != "" && version != "" {
            AddHubsKeeps(r, group, version, objs);
          }
        case RegisterConversion(hub, version, spoke, f, g) =>
          AddConversionKeeps(r, hub, version, spoke, f, g);
      }
      RegistrationsKeep(next, calls[1..]);
      ExtendsTransitive(r, next, ApplyAll(r, calls));
    }
  }

  lemma RegistryAlwaysWellFormed(calls: seq<Call>)
    ensures WellFormed(ApplyAll(EMPTY, calls))
  {
    RegistrationsKeep(EMPTY, calls);
  }

  // ---------------------------------------------------------------------------------------------
  // Conversions
  // ---------------------------------------------------------------------------------------------

  lemma GroupVersionStringInjective(a: GroupVersionKind, b: GroupVersionKind)
    requires a.group == b.group && GroupVersionString(a) == GroupVersionString(b)
    ensures a.version == b.version
  {
    if a.group != "" {
      var prefix := a.group + "/";
      assert GroupVersionString(a)[|prefix|..] == a.version;
      assert GroupVersionString(b)[|prefix|..] == b.version;
    }
  }

  /**
    Pinning: a hub object read from a spoke converts, while its type is flagged as a hub, exactly to that spoke's type
    and GVK, no matter what is registered in between.
   */
  lemma PinnedToItsSource(r: Registry, calls: seq<Call>, spoke: Object, spokeSource: string, hub: Object, dst: Object, funcSucceeds: bool)
    requires WellFormed(r)
    requires IsHub(r, hub) && Conversion(r, spoke, spokeSource, hub, true).Converted?
    requires IsHub(ApplyAll(r, calls), hub)
    ensures var pinned, later := Conversion(r, spoke, spokeSource, hub, true).source, ApplyAll(r, calls);
            && pinned.Some? && pinned.value != ""
            && (Conversion(later, hub, pinned.value, dst, funcSucceeds).Converted? <==> dst == spoke && funcSucceeds)
            && (dst == spoke ==> GroupVersionKindFor(later, dst) == GroupVersionKindFor(r, spoke))
  {
    var later := ApplyAll(r, calls);
    RegistrationsKeep(r, calls);
    var s, h := GroupVersionKindFor(r, spoke).value, GroupVersionKindFor(r, hub).value;
    assert FuncOf(r, s, h).Some?;
    assert FuncOf(r, h, s).Some? && Siblings(r, s, h);
    assert FuncOf(later, h, s) == FuncOf(r, h, s);
    assert hub.goType.convertible;
    var d := GroupVersionKindFor(later, dst);
    if d.Some? && FuncOf(later, h, d.value).Some? {
      assert Siblings(later, h, d.value);
      if GroupVersionString(d.value) == GroupVersionString(s) {
        GroupVersionStringInjective(d.value, s);
        assert d.value == s;
        assert dst.goType == later.gvkToType[s] == spoke.goType;
      }
    }
    assert GroupVersionString(s) != "";
  }

  /** A conversion succeeds exactly along a registered function that succeeds, and from a hub only to the source it is pinned to. */
  lemma ConvertsExactly(r: Registry, src: Object, source: string, dst: Object, funcSucceeds: bool)
    requires WellFormed(r)
    ensures var s, d := GroupVersionKindFor(r, src), GroupVersionKindFor(r, dst);
            && (Conversion(r, src, source, dst, funcSucceeds).Converted? <==>
                  && s.Some? && d.Some? && FuncOf(r, s.value, d.value).Some? && funcSucceeds
                  && (IsHubGVK(r, s.value) ==> source == "" || source == GroupVersionString(d.value)))
            && (Conversion(r, src, source, dst, funcSucceeds).Converted? ==>
                  Conversion(r, src, source, dst, funcSucceeds).source
                  == if IsHubGVK(r, d.value) then Some(GroupVersionString(s.value)) else None)
  {
    var s, d := GroupVersionKindFor(r, src), GroupVersionKindFor(r, dst);
    if s.Some? && d.Some? && FuncOf(r, s.value, d.value).Some? {
      assert Siblings(r, s.value, d.value);
      assert r.gvkToType[s.value] == src.goType && r.gvkToType[d.value] == dst.goType;
    }
  }

  /**
    After a successful registration, and whatever is registered later, the pair converts in both directions by its own
    functions: the spoke to the hub with its version as the pinned source, the hub back if unpinned or pinned to it.
   */
  lemma RegisteredConverts(r: Registry, hub: Object, spokeVersion: string, spoke: Object, hubToSpoke: ConvertFunc, spokeToHub: ConvertFunc, calls: seq<Call>, source: string)
    requires WellFormed(r)
    requires AddConversionTo(r, hub, spokeVersion, spoke, hubToSpoke, spokeToHub).1
    ensures var later := ApplyAll(AddConversionTo(r, hub, spokeVersion, spoke, hubToSpoke, spokeToHub).0, calls);
            var h := r.typeToGVK[hub.goType];
            var s := GroupVersionKind(h.group, spokeVersion, h.kind);
            && FuncOf(later, h, s) == Some(hubToSpoke) && FuncOf(later, s, h) == Some(spokeToHub)
            && (IsHubGVK(later, h) && !IsHubGVK(later, s) ==>
                  && Conversion(later, spoke, source, hub, true) == Converted(Some(GroupVersionString(s)))
                  && (Conversion(later, hub, source, spoke, true) == Converted(None) <==> source == "" || source == GroupVersionString(s)))
  {
    var now := AddConversionTo(r, hub, spokeVersion, spoke, hubToSpoke, spokeToHub).0;
    var later := ApplyAll(now, calls);
    AddConversionExact(r, hub, spokeVersion, spoke, hubToSpoke, spokeToHub);
    AddConversionKeeps(r, hub, spokeVersion, spoke, hubToSpoke, spokeToHub);
    RegistrationsKeep(now, calls);
    ConvertsExactly(later, spoke, source, hub, true);
    ConvertsExactly(later, hub, source, spoke, true);
  }

  /** The unchecked type assertion of Convert fails only for a list type registered as a hub and used as the source. */
  lemma PanicsExactly(r: Registry, src: Object, source: string, dst: Object, funcSucceeds: bool)
    requires WellFormed(r)
    ensures Conversion(r, src, source, dst, funcSucceeds) == Panicked <==>
            IsHub(r, src) && GroupVersionKindFor(r, dst).Some? && !src.goType.convertible
    ensures Conversion(r, src, source, dst, funcSucceeds) == Panicked ==> IsListKind(src.goType.name)
  {
    var s, d := GroupVersionKindFor(r, src), GroupVersionKindFor(r, dst);
    if s.Some? && d.Some? && FuncOf(r, s.value, d.value).Some? {
      assert Siblings(r, s.value, d.value);
      if IsHubGVK(r, d.value) {
        assert r.gvkToType[d.value] == dst.goType;
      }
    }
  }

  /** The spoke chosen for a hub object is registered, with conversions in both directions. */
  lemma SpokeIsConvertible(r: Registry, obj: Object, selector: (string, string) -> Option<string>)
    requires WellFormed(r)
    requires SpokeGroupVersionKindFor(r, obj, selector).Some?
    ensures var gvk, spoke := GroupVersionKindFor(r, obj).value, SpokeGroupVersionKindFor(r, obj, selector).value;
            && spoke.group == gvk.group && spoke.kind == gvk.kind && spoke.version != gvk.version
            && selector(gvk.group, if IsListKind(gvk.kind) then gvk.kind[..|gvk.kind| - 4] else gvk.kind) == Some(spoke.version)
            && (!IsListKind(gvk.kind) ==> spoke in r.gvkToType && FuncOf(r, gvk, spoke).Some? && FuncOf(r, spoke, gvk).Some?)
  {
    var gvk := GroupVersionKindFor(r, obj).value;
    if IsListKind(gvk.kind) {
      assert gvk.kind[..|gvk.kind| - 4] + "List" == gvk.kind;
      var item := gvk.(kind := gvk.kind[..|gvk.kind| - 4]);
      var version := selector(item.group, item.kind).value;
      assert FuncOf(r, item, item.(version := version)).Some?;
    } else {
      var spoke := gvk.(version := selector(gvk.group, gvk.kind).value);
      assert FuncOf(r, gvk, spoke).Some?;
    }
  }

  /** A spoke is found exactly for a hub type, or the list of one, whose selected version has a conversion. */
  lemma SpokeFound(r: Registry, obj: Object, selector: (string, string) -> Option<string>)
    ensures SpokeGroupVersionKindFor(r, obj, selector).Some? <==>
            && obj.Pointer? && obj.goType in r.typeToGVK
            && var gvk := r.typeToGVK[obj.goType];
               var item := if IsListKind(gvk.kind) then gvk.(kind := gvk.kind[..|gvk.kind| - |"List"|]) else gvk;
               && IsHubGVK(r, item) && selector(item.group, item.kind).Some?
               && FuncOf(r, item, item.(version := selector(item.group, item.kind).value)).Some?
  {
  }
}
