/**
  The filter that `set` applies to the comma separated list of feature gates: it drops versioned gates that are set to
  false and unknown to the current vm-operator version, and keeps everything else, malformed items included.
 */
module FeatureGates {
  import opened Common
  import opened Text

  predicate IsSpace(c: char) {
    || '\U{9}' <= c <= '\U{d}' || c == ' ' || c == '\U{85}' || c == '\U{a0}' || c == '\U{1680}'
    || '\U{2000}' <= c <= '\U{200a}' || c == '\U{2028}' || c == '\U{2029}' || c == '\U{202f}' || c == '\U{205f}' || c == '\U{3000}'
  }

  function TrimLeft(s: string): string {
    if s != [] && IsSpace(s[0]) then TrimLeft(s[1..]) else s
  }

  function TrimRight(s: string): string {
    if s != [] && IsSpace(s[|s| - 1]) then TrimRight(s[..|s| - 1]) else s
  }

  function TrimSpace(s: string): string {
    TrimRight(TrimLeft(s))
  }

  /** What trimming means: only space is cut off, and none is left at either end. */
  lemma {:induction false} TrimExact(s: string) returns (left: string, right: string)
    ensures s == left + TrimSpace(s) + right
    ensures forall c :: c in left || c in right ==> IsSpace(c)
    ensures var t := TrimSpace(s); t != [] ==> !IsSpace(t[0]) && !IsSpace(t[|t| - 1])
    decreases |s|
  {
    if s != [] && IsSpace(s[0]) {
      left, right := TrimExact(s[1..]);
      left := [s[0]] + left;
      assert s == [s[0]] + s[1..];
    } else {
      left := [];
      right := TrimRightExact(s);
    }
  }

  lemma {:induction false} TrimRightExact(s: string) returns (right: string)
    ensures s == TrimRight(s) + right
    ensures forall c :: c in right ==> IsSpace(c)
    ensures var t := TrimRight(s); t != [] ==> t[0] == s[0] && !IsSpace(t[|t| - 1])
    decreases |s|
  {
    right := [];
    if s != [] && IsSpace(s[|s| - 1]) {
      right := TrimRightExact(s[..|s| - 1]);
      right := right + [s[|s| - 1]];
      assert s == s[..|s| - 1] + [s[|s| - 1]];
    }
  }

  function ParseBool(s: string): Option<bool> {
    if s in ["1", "t", "T", "true", "TRUE", "True"] then Some(true)
    else if s in ["0", "f", "F", "false", "FALSE", "False"] then Some(false)
    else None
  }

  /** An item of the form `name=value`. */
  predicate HasValue(item: string) {
    '=' in item
  }

  function GateName(item: string): string {
    TrimSpace(Before('=', item))
  }

  function GateValue(item: string): string {
    TrimSpace(After('=', item))
  }

  /** A versioned gate that the current version does not know, set to false. */
  predicate Dropped(item: string, versioned: set<string>, known: set<string>) {
    HasValue(item) && GateName(item) in versioned && ParseBool(GateValue(item)) == Some(false) && GateName(item) !in known
  }

  function Kept(items: seq<string>, versioned: set<string>, known: set<string>): seq<string> {
    if items == [] then []
    else
      var last := items[|items| - 1];
      Kept(items[..|items| - 1], versioned, known)
      + if last != "" && !Dropped(last, versioned, known) then [last] else []
  }

  function Cleaned(value: string, versioned: set<string>, known: set<string>): string {
    Join(',', Kept(Split(',', value), versioned, known))
  }

  method CleanGates(value: string, versioned: set<string>, known: set<string>) returns (cleaned: string)
    ensures cleaned == Cleaned(value, versioned, known)
  {
    var items := Split(',', value);
    var values: seq<string> := [];
    for i := 0 to |items|
      invariant values == Kept(items[..i], versioned, known)
    {
      assert items[..i + 1][..i] == items[..i];
      var s := items[i];
      if s == "" {
        continue;
      }
      var k := TrimSpace(Before('=', s));
      if '=' !in s {
        values := values + [s];
        continue;
      }
      if k !in versioned {
        values := values + [s];
        continue;
      }
      var boolValue := ParseBool(TrimSpace(After('=', s)));
      if boolValue.None? {
        values := values + [s];
        continue;
      }
      if !boolValue.value && k !in known {
        continue;
      }
      values := values + [s];
    }
    assert items[..|items|] == items;
    cleaned := Join(',', values);
  }

  // ---------------------------------------------------------------------------------------------
  // What the filter preserves
  // ---------------------------------------------------------------------------------------------

  /** The value the last item for a gate gives it. */
  function LastAssignment(items: seq<string>, gate: string): Option<string> {
    if items == [] then None
    else
      var last := items[|items| - 1];
      if HasValue(last) && GateName(last) == gate then Some(GateValue(last))
      else LastAssignment(items[..|items| - 1], gate)
  }

  lemma LastAssignmentSnoc(items: seq<string>, item: string, gate: string)
    ensures LastAssignment(items + [item], gate)
         == if HasValue(item) && GateName(item) == gate then Some(GateValue(item)) else LastAssignment(items, gate)
  {
    assert (items + [item])[..|items|] == items;
  }

  lemma {:induction false} KeptAssignment(items: seq<string>, versioned: set<string>, known: set<string>, gate: string)
    requires gate in known || gate !in versioned
    ensures LastAssignment(Kept(items, versioned, known), gate) == LastAssignment(items, gate)
  {
    if items != [] {
      var front, last := items[..|items| - 1], items[|items| - 1];
      KeptAssignment(front, versioned, known, gate);
      LastAssignmentSnoc(Kept(front, versioned, known), last, gate);
      assert Kept(front, versioned, known) + [] == Kept(front, versioned, known);
    }
  }

  /** An item is kept exactly when it is not empty and not dropped. */
  lemma {:induction false} KeptExact(items: seq<string>, versioned: set<string>, known: set<string>)
    ensures forall s :: s in Kept(items, versioned, known) <==> s in items && s != "" && !Dropped(s, versioned, known)
  {
    if items != [] {
      KeptExact(items[..|items| - 1], versioned, known);
      assert items == items[..|items| - 1] + [items[|items| - 1]];
    }
  }

  /** A list of items that all stay is unchanged. */
  lemma {:induction false} KeptFixpoint(items: seq<string>, versioned: set<string>, known: set<string>)
    requires forall i :: 0 <= i < |items| ==> items[i] != "" && !Dropped(items[i], versioned, known)
    ensures Kept(items, versioned, known) == items
  {
    if items != [] {
      var front, last := items[..|items| - 1], items[|items| - 1];
      assert items == front + [last];
      KeptFixpoint(front, versioned, known);
    }
  }

  /** The joined output splits into exactly the kept items; when none is kept, into one empty item. */
  lemma CleanedSplits(value: string, versioned: set<string>, known: set<string>)
    ensures var kept := Kept(Split(',', value), versioned, known);
            Split(',', Cleaned(value, versioned, known)) == if kept == [] then [""] else kept
  {
    var items := Split(',', value);
    var kept := Kept(items, versioned, known);
    SplitParts(',', value);
    KeptExact(items, versioned, known);
    forall i | 0 <= i < |kept| ensures ',' !in kept[i] {
      assert kept[i] in kept;
      assert kept[i] in items;
    }
    SplitJoin(',', kept);
  }

  /** Every gate that is known, or not versioned, keeps its last-wins value. */
  lemma AssignmentsPreserved(value: string, versioned: set<string>, known: set<string>, gate: string)
    requires gate in known || gate !in versioned
    ensures LastAssignment(Split(',', Cleaned(value, versioned, known)), gate) == LastAssignment(Split(',', value), gate)
  {
    var items := Split(',', value);
    var kept := Kept(items, versioned, known);
    KeptAssignment(items, versioned, known, gate);
    CleanedSplits(value, versioned, known);
    if kept == [] {
      LastAssignmentSnoc([], "", gate);
      assert [] + [""] == [""];
    }
  }

  /** The condition for removing an item, on its text. */
  predicate SetsToFalse(item: string, versioned: set<string>, known: set<string>) {
    && '=' in item && TrimSpace(Before('=', item)) in versioned && TrimSpace(Before('=', item)) !in known
    && TrimSpace(After('=', item)) in ["0", "f", "F", "false", "FALSE", "False"]
  }

  lemma DroppedExact(item: string, versioned: set<string>, known: set<string>)
    ensures Dropped(item, versioned, known) <==> SetsToFalse(item, versioned, known)
  {
  }

  /** Exactly the items that set a versioned gate, unknown to the current version, to a spelling of false are removed. */
  lemma OnlyFalseDropped(value: string, versioned: set<string>, known: set<string>, item: string)
    requires item != ""
    ensures item in Split(',', Cleaned(value, versioned, known)) <==>
            item in Split(',', value) && !SetsToFalse(item, versioned, known)
  {
    DroppedExact(item, versioned, known);
    CleanedSplits(value, versioned, known);
    KeptExact(Split(',', value), versioned, known);
  }

  lemma AssignmentParsed(gate: string, value: string)
    requires '=' !in gate
    ensures var item := gate + "=" + value; '=' in item && Before('=', item) == gate && After('=', item) == value
  {
    var item := gate + "=" + value;
    assert item == gate + ['='] + value;
    assert item[|gate|] == '=';
    BeforeConcat('=', gate, value);
    BeforeAfter('=', item);
    assert After('=', item) == item[|gate| + 1..] == value;
  }

  lemma TrueTrimmed(spelling: string)
    requires spelling in ["1", "t", "T", "true", "TRUE", "True"]
    ensures TrimSpace(spelling) !in ["0", "f", "F", "false", "FALSE", "False"]
  {
    assert !IsSpace(spelling[0]) && !IsSpace(spelling[|spelling| - 1]);
    assert TrimSpace(spelling) == spelling;
  }

  lemma TrueNotDropped(versioned: set<string>, known: set<string>, gate: string, spelling: string)
    requires '=' !in gate && spelling in ["1", "t", "T", "true", "TRUE", "True"]
    ensures !SetsToFalse(gate + "=" + spelling, versioned, known)
  {
    AssignmentParsed(gate, spelling);
    TrueTrimmed(spelling);
  }

  /** An unknown versioned gate that is set to true stays in the list, to be rejected later. */
  lemma TrueKept(value: string, versioned: set<string>, known: set<string>, gate: string, spelling: string)
    requires '=' !in gate && spelling in ["1", "t", "T", "true", "TRUE", "True"]
    requires gate + "=" + spelling in Split(',', value)
    ensures gate + "=" + spelling in Split(',', Cleaned(value, versioned, known))
  {
    TrueNotDropped(versioned, known, gate, spelling);
    OnlyFalseDropped(value, versioned, known, gate + "=" + spelling);
  }

  lemma CleanedIdempotent(value: string, versioned: set<string>, known: set<string>)
    ensures Cleaned(Cleaned(value, versioned, known), versioned, known) == Cleaned(value, versioned, known)
  {
    var kept := Kept(Split(',', value), versioned, known);
    CleanedSplits(value, versioned, known);
    KeptExact(Split(',', value), versioned, known);
    if kept == [] {
      assert [""][..0] == [];
      assert Kept([""], versioned, known) == [];
    } else {
      forall i | 0 <= i < |kept| ensures kept[i] != "" && !Dropped(kept[i], versioned, known) {
        assert kept[i] in kept;
      }
      KeptFixpoint(kept, versioned, known);
    }
  }
}
