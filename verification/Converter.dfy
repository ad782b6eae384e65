/**
  The hub/spoke converter: a registry of four maps that registrations extend, partly even when they fail, and the
  conversion that pins a hub object to the version it was read from.
 */
module Converter {
  import opened Common

  datatype GroupVersionKind = GroupVersionKind(group: string, version: string, kind: string)

  /** A Go struct type; `convertible` says whether it implements the Convertible interface. */
  datatype GoType = GoType(pkgPath: string, name: string, convertible: bool)

  /** What reflection finds behind a `runtime.Object`. */
  datatype Object = Nil | NotPointer | PointerToOther | Pointer(goType: GoType)

  /** The identity of a conversion function. */
  type ConvertFunc = int

  datatype Registry = Registry(
    gvkToType: map<GroupVersionKind, GoType>,
    typeToGVK: map<GoType, GroupVersionKind>,
    hubTypes: map<GroupVersionKind, bool>,
    funcs: map<GroupVersionKind, map<GroupVersionKind, ConvertFunc>>)

  const EMPTY := Registry(map[], map[], map[], map[])

  predicate IsListKind(kind: string) {
    |kind| >= 4 && kind[|kind| - 4..] == "List"
  }

  /** `objType`: None is an error. */
  function ObjType(obj: Object): Option<GoType> {
    if obj.Pointer? then Some(obj.goType) else None
  }

  function GroupVersionKindFor(r: Registry, obj: Object): Option<GroupVersionKind> {
    if obj.Pointer? && obj.goType in r.typeToGVK then Some(r.typeToGVK[obj.goType]) else None
  }

  function FuncOf(r: Registry, src: GroupVersionKind, dst: GroupVersionKind): Option<ConvertFunc> {
    if src in r.funcs && dst in r.funcs[src] then Some(r.funcs[src][dst]) else None
  }

  predicate IsHubGVK(r: Registry, gvk: GroupVersionKind) {
    gvk in r.hubTypes && r.hubTypes[gvk]
  }

  predicate IsHub(r: Registry, obj: Object) {
    var gvk := GroupVersionKindFor(r, obj);
    gvk.Some? && IsHubGVK(r, gvk.value)
  }

  // ---------------------------------------------------------------------------------------------
  // Registration
  // ---------------------------------------------------------------------------------------------

  /** Would registering the pair bind a known GVK or a known type to something else? */
  predicate Clashes(r: Registry, gvk: GroupVersionKind, t: GoType) {
    || (gvk in r.gvkToType && r.gvkToType[gvk] != t)
    || (t in r.typeToGVK && r.typeToGVK[t] != gvk)
  }

  function Bind(r: Registry, gvk: GroupVersionKind, t: GoType, hub: bool): Registry {
    r.(gvkToType := r.gvkToType[gvk := t], hubTypes := r.hubTypes[gvk := hub], typeToGVK := r.typeToGVK[t := gvk])
  }

  function AddHubType(r: Registry, group: string, version: string, obj: Object): Option<Registry> {
    match ObjType(obj)
    case None => None
    case Some(t) =>
      var gvk := GroupVersionKind(group, version, t.name);
      if (!IsListKind(t.name) && !t.convertible) || Clashes(r, gvk, t) then None
      else Some(Bind(r, gvk, t, true))
  }

  /** Types before the first failing one stay registered. */
  function AddHubs(r: Registry, group: string, version: string, objs: seq<Object>): (Registry, bool)
    decreases |objs|
  {
    if objs == [] then (r, true)
    else
      match AddHubType(r, group, version, objs[0])
      case None => (r, false)
      case Some(r') => AddHubs(r', group, version, objs[1..])
  }

  function AddHubTypesTo(r: Registry, group: string, version: string, objs: seq<Object>): (Registry, bool) {
    if group == "" || version == "" then (r, false) else AddHubs(r, group, version, objs)
  }

  function EnsureRow(r: Registry, src: GroupVersionKind): Registry {
    if src in r.funcs then r else r.(funcs := r.funcs[src := map[]])
  }

  /** Registers one direction; a different function for the same pair is an error. */
  function AddFunc(r: Registry, src: GroupVersionKind, dst: GroupVersionKind, f: ConvertFunc): (Registry, bool) {
    var row := EnsureRow(r, src);
    if dst in row.funcs[src] && row.funcs[src][dst] != f then (row, false)
    else (row.(funcs := row.funcs[src := row.funcs[src][dst := f]]), true)
  }

  predicate ValidPair(r: Registry, hub: GroupVersionKind, spoke: GroupVersionKind, spokeType: GoType) {
    && !IsListKind(hub.kind)
    && spoke.group != "" && spoke.version != "" && spoke.version != hub.version && spoke.kind == hub.kind
    && !Clashes(r, spoke, spokeType)
  }

  function AddConversionTo(r: Registry, hub: Object, spokeVersion: string, spoke: Object,
                           hubToSpoke: ConvertFunc, spokeToHub: ConvertFunc): (Registry, bool)
  {
    var hubGVK := GroupVersionKindFor(r, hub);
    var spokeType := ObjType(spoke);
    if hubGVK.None? || spokeType.None? then (r, false)
    else
      var spokeGVK := GroupVersionKind(hubGVK.value.group, spokeVersion, spokeType.value.name);
      if !ValidPair(r, hubGVK.value, spokeGVK, spokeType.value) then (r, false)
      else
        var (there, ok) := AddFunc(Bind(r, spokeGVK, spokeType.value, false), hubGVK.value, spokeGVK, hubToSpoke);
        if !ok then (there, false) else AddFunc(there, spokeGVK, hubGVK.value, spokeToHub)
  }

  // ---------------------------------------------------------------------------------------------
  // Conversion
  // ---------------------------------------------------------------------------------------------

  function GroupVersionString(gvk: GroupVersionKind): string {
    if gvk.group == "" then gvk.version else gvk.group + "/" + gvk.version
  }

  /** `Converted` carries the source written to the destination, when the destination is a hub. */
  datatype Outcome = Converted(source: Option<string>) | Failed | Panicked

  function Conversion(r: Registry, src: Object, source: string, dst: Object, funcSucceeds: bool): Outcome {
    var s, d := GroupVersionKindFor(r, src), GroupVersionKindFor(r, dst);
    if s.None? || d.None? then Failed
    else if IsHubGVK(r, s.value) && !src.goType.convertible then Panicked
    else if IsHubGVK(r, s.value) && source != "" && source != GroupVersionString(d.value) then Failed
    else if FuncOf(r, s.value, d.value).None? then Failed
    else if !funcSucceeds then Failed
    else if !IsHubGVK(r, d.value) then Converted(None)
    else if !dst.goType.convertible then Panicked
    else Converted(Some(GroupVersionString(s.value)))
  }

  /** The target spoke of a hub object; list kinds go through their item kind. */
  function SpokeGroupVersionKindFor(r: Registry, obj: Object, selector: (string, string) -> Option<string>): Option<GroupVersionKind> {
    var found := GroupVersionKindFor(r, obj);
    if found.None? then None
    else
      var isList := IsListKind(found.value.kind);
      var gvk := if isList then found.value.(kind := found.value.kind[..|found.value.kind| - 4]) else found.value;
      if !IsHubGVK(r, gvk) then None
      else
        match selector(gvk.group, gvk.kind)
        case None => None
        case Some(version) =>
          var spoke := gvk.(version := version);
          if FuncOf(r, gvk, spoke).None? then None
          else Some(if isList then spoke.(kind := spoke.kind + "List") else spoke)
  }

  // ---------------------------------------------------------------------------------------------
  // The mutable converter
  // ---------------------------------------------------------------------------------------------

  /** An API object: its reflected shape, and the source version of a hub object. */
  class ApiObject {
    const shape: Object
    var source: string

    constructor (shape: Object, source: string)
      ensures this.shape == shape && this.source == source
    {
      this.shape, this.source := shape, source;
    }
  }

  class ConverterState {
    var gvkToType: map<GroupVersionKind, GoType>
    var typeToGVK: map<GoType, GroupVersionKind>
    var hubTypes: map<GroupVersionKind, bool>
    var funcs: map<GroupVersionKind, map<GroupVersionKind, ConvertFunc>>

    function View(): Registry reads this {
      Registry(gvkToType, typeToGVK, hubTypes, funcs)
    }

    constructor ()
      ensures View() == EMPTY
    {
      gvkToType, typeToGVK, hubTypes, funcs := map[], map[], map[], map[];
    }

    method AddHubTypes(group: string, version: string, objs: seq<Object>) returns (ok: bool)
      modifies this
      ensures (View(), ok) == AddHubTypesTo(old(View()), group, version, objs)
    {
      if group == "" || version == "" {
        return false;
      }
      for i := 0 to |objs|
        invariant AddHubs(View(), group, version, objs[i..]) == AddHubs(old(View()), group, version, objs)
      {
        assert objs[i..][0] == objs[i] && objs[i..][1..] == objs[i + 1..];
        if !objs[i].Pointer? {
          return false;
        }
        var t := objs[i].goType;
        if !IsListKind(t.name) && !t.convertible {
          return false;
        }
        var gvk := GroupVersionKind(group, version, t.name);
        if gvk in gvkToType && gvkToType[gvk] != t {
          return false;
        }
        if t in typeToGVK && typeToGVK[t] != gvk {
          return false;
        }
        gvkToType := gvkToType[gvk := t];
        hubTypes := hubTypes[gvk := true];
        typeToGVK := typeToGVK[t := gvk];
      }
      return true;
    }

    method AddConversion(hub: Object, spokeVersion: string, spoke: Object, hubToSpoke: ConvertFunc, spokeToHub: ConvertFunc)
      returns (ok: bool)
      modifies this
      ensures (View(), ok) == AddConversionTo(old(View()), hub, spokeVersion, spoke, hubToSpoke, spokeToHub)
    {
      if !hub.Pointer? || hub.goType !in typeToGVK {
        return false;
      }
      var hubGVK := typeToGVK[hub.goType];
      if IsListKind(hubGVK.kind) || !spoke.Pointer? {
        return false;
      }
      var spokeType := spoke.goType;
      var spokeGVK := GroupVersionKind(hubGVK.group, spokeVersion, spokeType.name);
      if spokeGVK.group == "" || spokeGVK.version == "" || spokeGVK.version == hubGVK.version || hubGVK.kind != spokeGVK.kind {
        return false;
      }
      if spokeGVK in gvkToType && gvkToType[spokeGVK] != spokeType {
        return false;
      }
      if spokeType in typeToGVK && typeToGVK[spokeType] != spokeGVK {
        return false;
      }
      gvkToType := gvkToType[spokeGVK := spokeType];
      hubTypes := hubTypes[spokeGVK := false];
      typeToGVK := typeToGVK[spokeType := spokeGVK];
      ok := Register(hubGVK, spokeGVK, hubToSpoke);
      if !ok {
        return false;
      }
      ok := Register(spokeGVK, hubGVK, spokeToHub);
    }

    method Register(src: GroupVersionKind, dst: GroupVersionKind, f: ConvertFunc) returns (ok: bool)
      modifies this
      ensures (View(), ok) == AddFunc(old(View()), src, dst, f)
    {
      if src !in funcs {
        funcs := funcs[src := map[]];
      }
      if dst in funcs[src] && funcs[src][dst] != f {
        return false;
      }
      funcs := funcs[src := funcs[src][dst := f]];
      return true;
    }

    /** `funcSucceeds` is the outcome of the registered conversion function. */
    method Convert(src: ApiObject, dst: ApiObject, funcSucceeds: bool) returns (outcome: Outcome)
      modifies dst`source
      ensures outcome == Conversion(View(), src.shape, old(src.source), dst.shape, funcSucceeds)
      ensures dst.source == if outcome.Converted? && outcome.source.Some? then outcome.source.value else old(dst.source)
    {
      var registry := View();
      var srcGVK := GroupVersionKindFor(registry, src.shape);
      if srcGVK.None? {
        return Failed;
      }
      var dstGVK := GroupVersionKindFor(registry, dst.shape);
      if dstGVK.None? {
        return Failed;
      }
      if IsHubGVK(registry, srcGVK.value) {
        if !src.shape.goType.convertible {
          return Panicked;
        }
        if src.source != "" && src.source != GroupVersionString(dstGVK.value) {
          return Failed;
        }
      }
      if srcGVK.value !in funcs || dstGVK.value !in funcs[srcGVK.value] || !funcSucceeds {
        return Failed;
      }
      if IsHubGVK(registry, dstGVK.value) {
        if !dst.shape.goType.convertible {
          return Panicked;
        }
        dst.source := GroupVersionString(srcGVK.value);
        return Converted(Some(dst.source));
      }
      return Converted(None);
    }
  }
}
