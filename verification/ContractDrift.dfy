/**
 The contract drift check of scripts/check-contract-drift.ts: the recursive comparison of two
 schemas, and the comparison of the component schemas around it. A context is kept as its
 segments, which the report joins with dots. Property access is JavaScript's, so a name that
 every object inherits is never missed: it reads as a schema that says nothing.
 */
module ContractDrift {
  import opened Wrappers

  /** A JSON schema; `ref` is "" where there is no `$ref`, properties come in `Object.keys` order. */
  datatype Schema = Schema(ref: string, required: seq<string>, properties: seq<Property>)
  datatype Property = Property(name: string, schema: Schema)

  datatype Kind = Breaking | PotentiallyBreaking

  datatype What =
    | ReferenceChanged(from: string, to: string)
    | RequiredRemoved(name: string)
    | PropertyRemoved(name: string)
    | RequiredAdded(name: string)
    | SchemaRemoved(name: string)

  datatype Change = Change(kind: Kind, path: seq<string>, what: What)

  const EMPTY := Schema("", [], [])

  /** The names every object literal inherits from `Object.prototype`. */
  const INHERITED: set<string> :=
    {"constructor", "toString", "toLocaleString", "valueOf", "hasOwnProperty", "isPrototypeOf",
     "propertyIsEnumerable", "__proto__", "__defineGetter__", "__defineSetter__", "__lookupGetter__",
     "__lookupSetter__"}

  function Own(props: seq<Property>, name: string): Option<Schema> {
    if props == [] then None
    else if props[0].name == name then Some(props[0].schema)
    else Own(props[1..], name)
  }

  /** `props[name]`, with what it inherits. */
  function Read(props: seq<Property>, name: string): Option<Schema> {
    if Own(props, name).Some? then Own(props, name)
    else if name in INHERITED then Some(EMPTY)
    else None
  }

  // ----- the comparison, as a function

  function RequiredLost(baseline: seq<string>, current: seq<string>, context: seq<string>): seq<Change> {
    if baseline == [] then []
    else RequiredLost(baseline[..|baseline| - 1], current, context)
         + var r := baseline[|baseline| - 1];
           if r in current then [] else [Change(Breaking, context, RequiredRemoved(r))]
  }

  function RequiredGained(baseline: seq<string>, current: seq<string>, context: seq<string>): seq<Change> {
    if current == [] then []
    else RequiredGained(baseline, current[..|current| - 1], context)
         + var r := current[|current| - 1];
           if r in baseline then [] else [Change(PotentiallyBreaking, context, RequiredAdded(r))]
  }

  /** What property `i` of the baseline contributes. */
  function PropertyDrift(baseline: Schema, current: Schema, context: seq<string>, i: nat): seq<Change>
    requires i < |baseline.properties|
    decreases baseline, i
  {
    var p := baseline.properties[i];
    match Read(current.properties, p.name)
    case None => [Change(Breaking, context, PropertyRemoved(p.name))]
    case Some(s) => Drift(p.schema, s, context + [p.name])
  }

  /** What the first `k` properties of the baseline contribute. */
  function PropertiesDrift(baseline: Schema, current: Schema, context: seq<string>, k: nat): seq<Change>
    requires k <= |baseline.properties|
    decreases baseline, k
  {
    if k == 0 then []
    else PropertiesDrift(baseline, current, context, k - 1) + PropertyDrift(baseline, current, context, k - 1)
  }

  function Drift(baseline: Schema, current: Schema, context: seq<string>): seq<Change>
    decreases baseline, |baseline.properties| + 1
  {
    if baseline.ref != "" || current.ref != "" then
      if baseline.ref != current.ref
      then [Change(PotentiallyBreaking, context, ReferenceChanged(baseline.ref, current.ref))]
      else []
    else
      RequiredLost(baseline.required, current.required, context)
      + PropertiesDrift(baseline, current, context, |baseline.properties|)
      + RequiredGained(baseline.required, current.required, context)
  }

  // ----- the comparison, as it runs

  method CompareSchemas(baseline: Schema, current: Schema, context: seq<string>) returns (changes: seq<Change>)
    ensures changes == Drift(baseline, current, context)
    decreases baseline
  {
    hide Read;
    if baseline.ref != "" || current.ref != "" {
      if baseline.ref != current.ref {
        return [Change(PotentiallyBreaking, context, ReferenceChanged(baseline.ref, current.ref))];
      }
      return [];
    }
    changes := RemovedRequirements(baseline.required, current.required, context);
    ghost var lost := changes;
    for i := 0 to |baseline.properties|
      invariant changes == lost + PropertiesDrift(baseline, current, context, i)
    {
      var p := baseline.properties[i];
      var found := Read(current.properties, p.name);
      var inner := [Change(Breaking, context, PropertyRemoved(p.name))];
      if found.Some? {
        inner := CompareSchemas(p.schema, found.value, context + [p.name]);
      }
      assert inner == PropertyDrift(baseline, current, context, i);
      changes := changes + inner;
    }
    var added := AddedRequirements(baseline.required, current.required, context);
    changes := changes + added;
  }

  method RemovedRequirements(baseline: seq<string>, current: seq<string>, context: seq<string>)
    returns (changes: seq<Change>)
    ensures changes == RequiredLost(baseline, current, context)
  {
    changes := [];
    for i := 0 to |baseline|
      invariant changes == RequiredLost(baseline[..i], current, context)
    {
      assert baseline[..i + 1][..i] == baseline[..i];
      if baseline[i] !in current {
        changes := changes + [Change(Breaking, context, RequiredRemoved(baseline[i]))];
      }
    }
    assert baseline[..|baseline|] == baseline;
  }

  method AddedRequirements(baseline: seq<string>, current: seq<string>, context: seq<string>)
    returns (changes: seq<Change>)
    ensures changes == RequiredGained(baseline, current, context)
  {
    changes := [];
    for i := 0 to |current|
      invariant changes == RequiredGained(baseline, current[..i], context)
    {
      assert current[..i + 1][..i] == current[..i];
      if current[i] !in baseline {
        changes := changes + [Change(PotentiallyBreaking, context, RequiredAdded(current[i]))];
      }
    }
    assert current[..|current|] == current;
  }

  // ----- what is reported, exactly

  /** Object keys are distinct, at every level. */
  ghost predicate WellFormed(s: Schema) {
    && (forall i, j :: 0 <= i < j < |s.properties| ==> s.properties[i].name != s.properties[j].name)
    && (forall i :: 0 <= i < |s.properties| ==> WellFormed(s.properties[i].schema))
  }

  /** The pair of schemas that property path `p` leads to, while neither side goes through a `$ref`. */
  function Both(a: Schema, b: Schema, p: seq<string>): Option<(Schema, Schema)>
    decreases |p|
  {
    if p == [] then Some((a, b))
    else if a.ref == "" && b.ref == "" && Own(a.properties, p[0]).Some? && Read(b.properties, p[0]).Some?
    then Both(Own(a.properties, p[0]).value, Read(b.properties, p[0]).value, p[1..])
    else None
  }

  /** The difference `what` holds between these two schemas themselves, and is of this kind. */
  predicate Differs(a: Schema, b: Schema, kind: Kind, what: What) {
    match what
    case ReferenceChanged(from, to) => kind == PotentiallyBreaking && from == a.ref && to == b.ref && from != to
    case RequiredRemoved(r) =>
      kind == Breaking && a.ref == "" && b.ref == "" && r in a.required && r !in b.required
    case PropertyRemoved(n) =>
      kind == Breaking && a.ref == "" && b.ref == "" && Own(a.properties, n).Some? && Read(b.properties, n) == None
    case RequiredAdded(r) =>
      kind == PotentiallyBreaking && a.ref == "" && b.ref == "" && r in b.required && r !in a.required
    case SchemaRemoved(_) => false
  }

  ghost predicate DiffersAt(a: Schema, b: Schema, p: seq<string>, kind: Kind, what: What) {
    var pair := Both(a, b, p);
    pair.Some? && Differs(pair.value.0, pair.value.1, kind, what)
  }

  /** The report lists exactly the differences of the schemas that one path reaches on both sides. */
  lemma {:induction false} DriftIsExact(a: Schema, b: Schema, context: seq<string>, x: Change)
    requires WellFormed(a)
    ensures x in Drift(a, b, context)
       <==> exists p :: x.path == context + p && DiffersAt(a, b, p, x.kind, x.what)
  {
    if x in Drift(a, b, context) {
      var p := Reported(a, b, context, x);
    }
    if p :| x.path == context + p && DiffersAt(a, b, p, x.kind, x.what) {
      IsReported(a, b, context, p, x.kind, x.what);
      assert x == Change(x.kind, context + p, x.what);
    }
  }

  lemma {:induction false} InRequiredLost(a: seq<string>, b: seq<string>, context: seq<string>, x: Change)
    ensures x in RequiredLost(a, b, context)
       <==> x.kind == Breaking && x.path == context && x.what.RequiredRemoved? && x.what.name in a && x.what.name !in b
  {
    if a == [] {
    } else {
      InRequiredLost(a[..|a| - 1], b, context, x);
      assert a == a[..|a| - 1] + [a[|a| - 1]];
    }
  }

  lemma {:induction false} InRequiredGained(a: seq<string>, b: seq<string>, context: seq<string>, x: Change)
    ensures x in RequiredGained(a, b, context)
       <==> && x.kind == PotentiallyBreaking && x.path == context
            && x.what.RequiredAdded? && x.what.name in b && x.what.name !in a
  {
    if b == [] {
    } else {
      InRequiredGained(a, b[..|b| - 1], context, x);
      assert b == b[..|b| - 1] + [b[|b| - 1]];
    }
  }

  /** Property `i` contributes `x`. */
  ghost predicate Contributes(a: Schema, b: Schema, context: seq<string>, i: nat, x: Change) {
    i < |a.properties| && x in PropertyDrift(a, b, context, i)
  }

  lemma {:induction false} InPropertiesDrift(a: Schema, b: Schema, context: seq<string>, k: nat, x: Change)
    requires k <= |a.properties|
    ensures x in PropertiesDrift(a, b, context, k) <==> exists i: nat :: i < k && Contributes(a, b, context, i, x)
    decreases k
  {
    if k == 0 {
    } else {
      var earlier, last := PropertiesDrift(a, b, context, k - 1), PropertyDrift(a, b, context, k - 1);
      assert PropertiesDrift(a, b, context, k) == earlier + last;
      assert x in last <==> Contributes(a, b, context, k - 1, x);
      InPropertiesDrift(a, b, context, k - 1, x);
    }
  }

  lemma {:induction false} OwnAt(props: seq<Property>, i: nat)
    requires i < |props|
    requires forall i, j :: 0 <= i < j < |props| ==> props[i].name != props[j].name
    ensures Own(props, props[i].name) == Some(props[i].schema)
  {
    if i == 0 {
    } else {
      OwnAt(props[1..], i - 1);
    }
  }

  lemma {:induction false} OwnIndex(props: seq<Property>, name: string) returns (i: nat)
    requires Own(props, name).Some?
    ensures i < |props| && props[i].name == name && Own(props, name) == Some(props[i].schema)
  {
    if props[0].name == name {
      i := 0;
    } else {
      i := OwnIndex(props[1..], name);
      i := i + 1;
    }
  }

  lemma {:induction false} Reported(a: Schema, b: Schema, context: seq<string>, x: Change) returns (p: seq<string>)
    requires WellFormed(a) && x in Drift(a, b, context)
    ensures x.path == context + p && DiffersAt(a, b, p, x.kind, x.what)
    decreases a, 1
  {
    if a.ref == "" && b.ref == "" && x in PropertiesDrift(a, b, context, |a.properties|) {
      InPropertiesDrift(a, b, context, |a.properties|, x);
      var i: nat :| i < |a.properties| && Contributes(a, b, context, i, x);
      p := ReportedBelow(a, b, context, i, x);
    } else {
      p := [];
      assert context + p == context;
      InRequiredLost(a.required, b.required, context, x);
      InRequiredGained(a.required, b.required, context, x);
    }
  }

  lemma {:induction false} ReportedBelow(a: Schema, b: Schema, context: seq<string>, i: nat, x: Change)
    returns (p: seq<string>)
    requires WellFormed(a) && a.ref == "" && b.ref == ""
    requires i < |a.properties| && x in PropertyDrift(a, b, context, i)
    ensures x.path == context + p && DiffersAt(a, b, p, x.kind, x.what)
    decreases a, 0
  {
    var name := a.properties[i].name;
    OwnAt(a.properties, i);
    if Read(b.properties, name).Some? {
      var rest := Reported(a.properties[i].schema, Read(b.properties, name).value, context + [name], x);
      p := [name] + rest;
      assert context + p == context + [name] + rest && p[1..] == rest;
    } else {
      p := [];
      assert context + p == context;
    }
  }

  lemma {:induction false} IsReported(a: Schema, b: Schema, context: seq<string>, p: seq<string>, kind: Kind,
                                      what: What)
    requires WellFormed(a) && DiffersAt(a, b, p, kind, what)
    ensures Change(kind, context + p, what) in Drift(a, b, context)
    decreases |p|
  {
    var x := Change(kind, context + p, what);
    if p == [] {
      assert context + p == context;
      if a.ref == "" && b.ref == "" {
        InRequiredLost(a.required, b.required, context, x);
        InRequiredGained(a.required, b.required, context, x);
        InPropertiesDrift(a, b, context, |a.properties|, x);
        if what.PropertyRemoved? {
          var i := OwnIndex(a.properties, what.name);
          assert PropertyDrift(a, b, context, i) == [x];
          assert Contributes(a, b, context, i, x);
        }
      }
    } else {
      var i := OwnIndex(a.properties, p[0]);
      IsReported(a.properties[i].schema, Read(b.properties, p[0]).value, context + [p[0]], p[1..], kind, what);
      assert context + [p[0]] + p[1..] == context + p;
      assert PropertyDrift(a, b, context, i)
          == Drift(a.properties[i].schema, Read(b.properties, p[0]).value, context + [p[0]]);
      assert Contributes(a, b, context, i, x);
      InPropertiesDrift(a, b, context, |a.properties|, x);
    }
  }

  // ----- coverage

  /** `p` is a chain of own properties, with no `$ref` on the way. */
  predicate HasPath(s: Schema, p: seq<string>)
    decreases |p|
  {
    p == [] || (s.ref == "" && Own(s.properties, p[0]).Some? && HasPath(Own(s.properties, p[0]).value, p[1..]))
  }

  /** No schema that `p` leads through, as far as it leads, is a `$ref`. */
  predicate NoRefAlong(s: Schema, p: seq<string>)
    decreases |p|
  {
    p == [] || (s.ref == "" && (Own(s.properties, p[0]).Some? ==> NoRefAlong(Own(s.properties, p[0]).value, p[1..])))
  }

  /** How far `p` leads through own properties of `s`. */
  function OwnPrefix(s: Schema, p: seq<string>): (n: nat)
    ensures n <= |p|
    decreases |p|
  {
    if p == [] || Own(s.properties, p[0]) == None then 0
    else 1 + OwnPrefix(Own(s.properties, p[0]).value, p[1..])
  }

  /** The report has a removed property at position `k` of path `p`. */
  ghost predicate RemovedAt(a: Schema, b: Schema, p: seq<string>, k: nat) {
    k < |p| && DiffersAt(a, b, p[..k], Breaking, PropertyRemoved(p[k]))
  }

  /** Some name of `p`, from where the current schema's own properties end, is not an inherited one. */
  predicate LosesPlainName(b: Schema, p: seq<string>) {
    exists j :: OwnPrefix(b, p) <= j < |p| && p[j] !in INHERITED
  }

  lemma {:induction false} RemovedBelow(a: Schema, b: Schema, p: seq<string>, k: nat)
    requires HasPath(a, p) && p != [] && b.ref == "" && Read(b.properties, p[0]).Some?
    ensures !RemovedAt(a, b, p, 0)
    ensures RemovedAt(a, b, p, k + 1)
       <==> RemovedAt(Own(a.properties, p[0]).value, Read(b.properties, p[0]).value, p[1..], k)
  {
    if k + 1 < |p| {
      assert p[..k + 1][1..] == p[1..][..k] && p[k + 1] == p[1..][k];
    }
  }

  lemma {:induction false} RemovedIffPlain(a: Schema, b: Schema, p: seq<string>)
    requires HasPath(a, p) && NoRefAlong(b, p)
    ensures (exists k: nat :: RemovedAt(a, b, p, k)) <==> LosesPlainName(b, p)
    decreases |p|
  {
    if p == [] {
    } else {
      if Read(b.properties, p[0]) == None {
        assert p[..0] == [] && RemovedAt(a, b, p, 0);
        assert OwnPrefix(b, p) == 0;
      } else {
        var a', b', rest := Own(a.properties, p[0]).value, Read(b.properties, p[0]).value, p[1..];
        assert b' == EMPTY ==> NoRefAlong(b', rest) && OwnPrefix(b', rest) == 0;
        RemovedIffPlain(a', b', rest);
        if k: nat :| RemovedAt(a, b, p, k) {
          RemovedBelow(a, b, p, 0);
          RemovedBelow(a, b, p, k - 1);
        }
        if k: nat :| RemovedAt(a', b', rest, k) {
          RemovedBelow(a, b, p, k);
        }
        PlainBelow(b, p);
      }
    }
  }

  lemma {:induction false} PlainBelow(b: Schema, p: seq<string>)
    requires p != [] && Read(b.properties, p[0]).Some?
    ensures LosesPlainName(b, p) <==> LosesPlainName(Read(b.properties, p[0]).value, p[1..])
  {
    var b', rest := Read(b.properties, p[0]).value, p[1..];
    if Own(b.properties, p[0]) == None {
      assert p[0] in INHERITED && OwnPrefix(b, p) == 0 && OwnPrefix(b', rest) == 0;
    }
    if j :| OwnPrefix(b, p) <= j < |p| && p[j] !in INHERITED {
      assert rest[j - 1] !in INHERITED;
    }
    if j :| OwnPrefix(b', rest) <= j < |rest| && rest[j] !in INHERITED {
      assert p[j + 1] !in INHERITED;
    }
  }

  /**
   A property path of the baseline is reported as removed at one of its prefixes exactly when the
   current schema has lost it at, or before, a name that objects do not inherit.
   */
  lemma {:induction false} LostPathIsCovered(a: Schema, b: Schema, context: seq<string>, p: seq<string>)
    requires WellFormed(a) && HasPath(a, p) && NoRefAlong(b, p)
    ensures (exists k: nat :: k < |p| && Change(Breaking, context + p[..k], PropertyRemoved(p[k])) in Drift(a, b, context))
       <==> LosesPlainName(b, p)
    ensures HasPath(b, p) ==> !LosesPlainName(b, p)
  {
    forall k: nat | k < |p|
      ensures Change(Breaking, context + p[..k], PropertyRemoved(p[k])) in Drift(a, b, context) <==> RemovedAt(a, b, p, k)
    {
      ReportedAt(a, b, context, p, k);
    }
    RemovedIffPlain(a, b, p);
    if HasPath(b, p) {
      WholePath(b, p);
    }
  }

  lemma {:induction false} ReportedAt(a: Schema, b: Schema, context: seq<string>, p: seq<string>, k: nat)
    requires WellFormed(a) && k < |p|
    ensures Change(Breaking, context + p[..k], PropertyRemoved(p[k])) in Drift(a, b, context) <==> RemovedAt(a, b, p, k)
  {
    var x := Change(Breaking, context + p[..k], PropertyRemoved(p[k]));
    if x in Drift(a, b, context) {
      var p' := Reported(a, b, context, x);
      assert p' == (context + p')[|context|..] == (context + p[..k])[|context|..] == p[..k];
    }
    if RemovedAt(a, b, p, k) {
      IsReported(a, b, context, p[..k], Breaking, PropertyRemoved(p[k]));
    }
  }

  lemma {:induction false} WholePath(b: Schema, p: seq<string>)
    requires HasPath(b, p)
    ensures OwnPrefix(b, p) == |p|
    decreases |p|
  {
    if p == [] {
    } else {
      WholePath(Own(b.properties, p[0]).value, p[1..]);
    }
  }

  /** An inherited name is the exception: dropping such a property goes unreported. */
  lemma {:induction false} InheritedNameIsMissed()
    ensures exists a: Schema, b: Schema, p: seq<string> ::
              WellFormed(a) && HasPath(a, p) && NoRefAlong(b, p) && !HasPath(b, p) && Drift(a, b, []) == []
  {
    var a, p := Schema("", [], [Property("constructor", EMPTY)]), ["constructor"];
    assert Own(EMPTY.properties, "constructor") == None && Own(a.properties, "constructor") == Some(EMPTY);
    assert PropertyDrift(a, EMPTY, [], 0) == [] by {
      assert Read(EMPTY.properties, "constructor") == Some(EMPTY);
    }
    assert PropertiesDrift(a, EMPTY, [], 1) == PropertiesDrift(a, EMPTY, [], 0) + [];
    assert Drift(a, EMPTY, []) == [];
    assert p[1..] == [];
    assert WellFormed(EMPTY) && WellFormed(a);
    assert HasPath(a, p) && NoRefAlong(EMPTY, p) && !HasPath(EMPTY, p);
  }

  // ----- what a silent, or a passing, report means

  /** How much of a report must be absent. */
  datatype Level = NoBreaking | NoBreakingNorReference | Silent

  predicate Flags(level: Level, x: Change) {
    match level
    case NoBreaking => x.kind == Breaking
    case NoBreakingNorReference => x.kind == Breaking || x.what.ReferenceChanged?
    case Silent => true
  }

  /** The current schema still offers what the baseline offers. */
  ghost predicate Accepts(level: Level, a: Schema, b: Schema)
    decreases a
  {
    if a.ref != "" || b.ref != "" then level == NoBreaking || a.ref == b.ref
    else
      && (forall r <- a.required :: r in b.required)
      && (level == Silent ==> forall r <- b.required :: r in a.required)
      && (forall p <- a.properties ::
            Read(b.properties, p.name).Some? && Accepts(level, p.schema, Read(b.properties, p.name).value))
  }

  ghost predicate AcceptsProperty(level: Level, a: Schema, b: Schema, i: nat)
    requires i < |a.properties|
  {
    var found := Read(b.properties, a.properties[i].name);
    found.Some? && Accepts(level, a.properties[i].schema, found.value)
  }

  lemma {:induction false} AcceptsAll(level: Level, a: Schema, b: Schema)
    requires a.ref == "" && b.ref == ""
    ensures Accepts(level, a, b)
       <==> && (forall r <- a.required :: r in b.required)
            && (level == Silent ==> forall r <- b.required :: r in a.required)
            && (forall i :: 0 <= i < |a.properties| ==> AcceptsProperty(level, a, b, i))
  {
    if forall i :: 0 <= i < |a.properties| ==> AcceptsProperty(level, a, b, i) {
      forall p <- a.properties
        ensures Read(b.properties, p.name).Some? && Accepts(level, p.schema, Read(b.properties, p.name).value)
      {
        var i :| 0 <= i < |a.properties| && a.properties[i] == p;
        assert AcceptsProperty(level, a, b, i);
      }
    }
  }

  ghost predicate Clear(level: Level, changes: seq<Change>) {
    forall x <- changes :: !Flags(level, x)
  }

  /** The report is clear of such changes exactly when the current schema offers what the baseline does. */
  lemma {:induction false} ClearIffAccepts(level: Level, a: Schema, b: Schema, context: seq<string>)
    ensures Clear(level, Drift(a, b, context)) <==> Accepts(level, a, b)
    decreases a, |a.properties| + 1
  {
    if a.ref == "" && b.ref == "" {
      ClearLost(level, a.required, b.required, context);
      ClearGained(level, a.required, b.required, context);
      ClearProperties(level, a, b, context, |a.properties|);
      var lost, gained := RequiredLost(a.required, b.required, context), RequiredGained(a.required, b.required, context);
      var inside := PropertiesDrift(a, b, context, |a.properties|);
      ClearJoins(level, lost, inside);
      ClearJoins(level, lost + inside, gained);
      assert Drift(a, b, context) == lost + inside + gained;
      AcceptsAll(level, a, b);
    } else if a.ref != b.ref {
      ClearOne(level, Change(PotentiallyBreaking, context, ReferenceChanged(a.ref, b.ref)));
    }
  }

  lemma {:induction false} ClearOne(level: Level, x: Change)
    ensures Clear(level, [x]) <==> !Flags(level, x)
  {
    assert x in [x];
  }

  lemma {:induction false} SilentIsEmpty(changes: seq<Change>)
    ensures Clear(Silent, changes) <==> changes == []
  {
    if changes != [] {
      assert Flags(Silent, changes[0]);
    }
  }

  lemma {:induction false} ClearJoins(level: Level, x: seq<Change>, y: seq<Change>)
    ensures Clear(level, x + y) <==> Clear(level, x) && Clear(level, y)
  {
    if Clear(level, x + y) {
      forall c <- x ensures !Flags(level, c) {
        assert c in x + y;
      }
      forall c <- y ensures !Flags(level, c) {
        assert c in x + y;
      }
    }
  }

  lemma {:induction false} ClearLost(level: Level, a: seq<string>, b: seq<string>, context: seq<string>)
    ensures Clear(level, RequiredLost(a, b, context)) <==> forall r <- a :: r in b
  {
    forall x <- RequiredLost(a, b, context) ensures x.kind == Breaking && x.what.RequiredRemoved?
                                                    && x.what.name in a && x.what.name !in b {
      InRequiredLost(a, b, context, x);
    }
    forall r <- a | r !in b ensures !Clear(level, RequiredLost(a, b, context)) {
      var x := Change(Breaking, context, RequiredRemoved(r));
      InRequiredLost(a, b, context, x);
      assert x in RequiredLost(a, b, context);
    }
  }

  lemma {:induction false} ClearGained(level: Level, a: seq<string>, b: seq<string>, context: seq<string>)
    ensures Clear(level, RequiredGained(a, b, context)) <==> (level == Silent ==> forall r <- b :: r in a)
  {
    forall x <- RequiredGained(a, b, context) ensures x.kind == PotentiallyBreaking && x.what.RequiredAdded?
                                                      && x.what.name in b && x.what.name !in a {
      InRequiredGained(a, b, context, x);
    }
    forall r <- b | r !in a ensures level == Silent ==> !Clear(level, RequiredGained(a, b, context)) {
      var x := Change(PotentiallyBreaking, context, RequiredAdded(r));
      InRequiredGained(a, b, context, x);
      assert x in RequiredGained(a, b, context);
    }
  }

  lemma {:induction false} ClearProperties(level: Level, a: Schema, b: Schema, context: seq<string>, k: nat)
    requires k <= |a.properties|
    ensures Clear(level, PropertiesDrift(a, b, context, k))
       <==> forall i :: 0 <= i < k ==> AcceptsProperty(level, a, b, i)
    decreases a, k
  {
    hide AcceptsProperty;
    if k == 0 {
    } else {
      var earlier, last := PropertiesDrift(a, b, context, k - 1), PropertyDrift(a, b, context, k - 1);
      assert PropertiesDrift(a, b, context, k) == earlier + last;
      hide Clear, PropertiesDrift, PropertyDrift;
      ClearProperties(level, a, b, context, k - 1);
      ClearProperty(level, a, b, context, k - 1);
      ClearJoins(level, earlier, last);
    }
  }

  lemma {:induction false} ClearProperty(level: Level, a: Schema, b: Schema, context: seq<string>, i: nat)
    requires i < |a.properties|
    ensures Clear(level, PropertyDrift(a, b, context, i)) <==> AcceptsProperty(level, a, b, i)
    decreases a, i
  {
    var p := a.properties[i];
    var found := Read(b.properties, p.name);
    if found.Some? {
      ClearIffAccepts(level, p.schema, found.value, context + [p.name]);
      assert PropertyDrift(a, b, context, i) == Drift(p.schema, found.value, context + [p.name]);
    } else {
      ClearOne(level, Change(Breaking, context, PropertyRemoved(p.name)));
    }
  }

  // ----- transitivity

  ghost predicate RefFree(s: Schema) {
    s.ref == "" && forall i :: 0 <= i < |s.properties| ==> RefFree(s.properties[i].schema)
  }

  /** No `$ref`, nothing required, every property inherited, and the same below. */
  predicate AsksNothing(s: Schema) {
    && s.ref == "" && s.required == []
    && forall p <- s.properties :: p.name in INHERITED && AsksNothing(p.schema)
  }

  /** Except for breaking changes alone, these are the schemas for which the empty one is as good. */
  lemma {:induction false} AsksNothingIff(level: Level, s: Schema)
    ensures AsksNothing(s) ==> Accepts(level, s, EMPTY)
    ensures level != NoBreaking ==> (Accepts(level, s, EMPTY) <==> AsksNothing(s))
    decreases s
  {
    forall p <- s.properties
      ensures AsksNothing(p.schema) ==> Accepts(level, p.schema, EMPTY)
      ensures level != NoBreaking ==> (Accepts(level, p.schema, EMPTY) <==> AsksNothing(p.schema))
    {
      AsksNothingIff(level, p.schema);
    }
    forall p <- s.properties
      ensures Read(EMPTY.properties, p.name) == if p.name in INHERITED then Some(EMPTY) else None
    {
      assert Own(EMPTY.properties, p.name) == None;
    }
    assert (forall r <- s.required :: r in EMPTY.required) <==> s.required == [] by {
      if s.required != [] {
        assert s.required[0] in s.required;
      }
    }
  }

  /** A property that a later version can drop unreported. */
  predicate Droppable(p: Property) {
    p.name in INHERITED && AsksNothing(p.schema)
  }

  /** There is one, not behind a `$ref`. */
  predicate HasDroppable(s: Schema) {
    s.ref == "" && exists p <- s.properties :: Droppable(p) || HasDroppable(p.schema)
  }

  /** Without breaking changes, what the empty schema accepts every schema accepts. */
  lemma {:induction false} AcceptedByAll(s: Schema, c: Schema)
    requires Accepts(NoBreaking, s, EMPTY)
    ensures Accepts(NoBreaking, s, c)
    decreases s
  {
    if s.ref == "" && c.ref == "" {
      forall p <- s.properties
        ensures Read(c.properties, p.name).Some? && Accepts(NoBreaking, p.schema, Read(c.properties, p.name).value)
      {
        assert Read(EMPTY.properties, p.name) == Some(EMPTY);
        AcceptedByAll(p.schema, Read(c.properties, p.name).value);
      }
    }
  }

  /**
   What the baseline offers is still offered after two steps: at "no breaking change" when the middle
   version has no `$ref`, and else when the baseline has nothing droppable.
   */
  lemma {:induction false} AcceptsTransitive(level: Level, a: Schema, b: Schema, c: Schema)
    requires Accepts(level, a, b) && Accepts(level, b, c)
    requires if level == NoBreaking then RefFree(b) else !HasDroppable(a)
    ensures Accepts(level, a, c)
    decreases a
  {
    if a.ref == "" && b.ref == "" && c.ref == "" {
      AcceptsAll(level, a, b);
      AcceptsAll(level, b, c);
      AcceptsAll(level, a, c);
      forall i | 0 <= i < |a.properties| ensures AcceptsProperty(level, a, c, i) {
        AcceptsPropertyTransitive(level, a, b, c, i);
      }
    }
  }

  lemma {:induction false} AcceptsPropertyTransitive(level: Level, a: Schema, b: Schema, c: Schema, i: nat)
    requires a.ref == "" && b.ref == "" && c.ref == "" && i < |a.properties|
    requires Accepts(level, a, b) && Accepts(level, b, c)
    requires if level == NoBreaking then RefFree(b) else !HasDroppable(a)
    ensures AcceptsProperty(level, a, c, i)
    decreases a, 0
  {
    var p := a.properties[i];
    AcceptsAll(level, a, b);
    AcceptsAll(level, b, c);
    assert AcceptsProperty(level, a, b, i);
    assert p in a.properties;
    if Own(b.properties, p.name).Some? {
      var j := OwnIndex(b.properties, p.name);
      assert AcceptsProperty(level, b, c, j);
      AcceptsTransitive(level, p.schema, b.properties[j].schema, Read(c.properties, p.name).value);
    } else {
      AsksNothingIff(level, p.schema);
      AcceptedByAll(p.schema, Read(c.properties, p.name).value);
    }
  }

  /** An empty report twice is an empty report over both steps; so is one without breaking changes, away from `$ref`. */
  lemma {:induction false} ReportsAreTransitive(level: Level, a: Schema, b: Schema, c: Schema, context: seq<string>)
    requires if level == NoBreaking then RefFree(b) else !HasDroppable(a)
    requires Clear(level, Drift(a, b, context)) && Clear(level, Drift(b, c, context))
    ensures Clear(level, Drift(a, c, context))
    ensures level == Silent ==> Drift(a, c, context) == []
  {
    ClearIffAccepts(level, a, b, context);
    ClearIffAccepts(level, b, c, context);
    AcceptsTransitive(level, a, b, c);
    ClearIffAccepts(level, a, c, context);
    SilentIsEmpty(Drift(a, c, context));
  }

  lemma {:induction false} AcceptsItself(level: Level, s: Schema)
    requires WellFormed(s)
    ensures Accepts(level, s, s)
    decreases s
  {
    forall i | 0 <= i < |s.properties| ensures AcceptsProperty(level, s, s, i) {
      OwnAt(s.properties, i);
      AcceptsItself(level, s.properties[i].schema);
    }
    if s.ref == "" {
      AcceptsAll(level, s, s);
    }
  }

  lemma {:induction false} SameSchemaIsSilent(s: Schema, context: seq<string>)
    requires WellFormed(s)
    ensures Drift(s, s, context) == []
  {
    AcceptsItself(Silent, s);
    ClearIffAccepts(Silent, s, s, context);
    SilentIsEmpty(Drift(s, s, context));
  }

  /** Two versions around `b` whose breaking change the `$ref` in `b` hides from both comparisons. */
  lemma {:induction false} HiddenChange(b: Schema) returns (a: Schema, c: Schema)
    requires WellFormed(b) && !RefFree(b)
    ensures WellFormed(a) && WellFormed(c)
    ensures Accepts(NoBreaking, a, b) && Accepts(NoBreaking, b, c) && !Accepts(NoBreaking, a, c)
    decreases b
  {
    if b.ref != "" {
      a, c := Schema("", [], [Property("x", EMPTY)]), EMPTY;
      assert WellFormed(EMPTY);
      AcceptsAll(NoBreaking, a, c);
      assert !AcceptsProperty(NoBreaking, a, c, 0);
    } else {
      var i: nat :| i < |b.properties| && !RefFree(b.properties[i].schema);
      var inner, inner' := HiddenChange(b.properties[i].schema);
      a, c := Schema("", [], [Property(b.properties[i].name, inner)]), WithProperty(b, i, inner');
      OwnAt(b.properties, i);
      WithPropertyReads(b, i, inner');
      SoleProperty(a, b);
      SoleProperty(a, c);
      ChangedProperty(NoBreaking, b, i, inner');
    }
  }

  lemma {:induction false} SoleProperty(a: Schema, b: Schema)
    requires a.ref == "" && b.ref == "" && a.required == [] && |a.properties| == 1
    ensures Accepts(NoBreaking, a, b) <==> AcceptsProperty(NoBreaking, a, b, 0)
  {
    AcceptsAll(NoBreaking, a, b);
  }

  /** `s` with another schema for its property `i`. */
  function WithProperty(s: Schema, i: nat, inner: Schema): Schema
    requires i < |s.properties|
  {
    s.(properties := s.properties[i := Property(s.properties[i].name, inner)])
  }

  lemma {:induction false} WithPropertyReads(s: Schema, i: nat, inner: Schema)
    requires WellFormed(s) && i < |s.properties| && WellFormed(inner)
    ensures WellFormed(WithProperty(s, i, inner))
    ensures Own(WithProperty(s, i, inner).properties, s.properties[i].name) == Some(inner)
  {
    OwnAt(WithProperty(s, i, inner).properties, i);
  }

  lemma {:induction false} ChangedProperty(level: Level, b: Schema, i: nat, s: Schema)
    requires WellFormed(b) && b.ref == "" && i < |b.properties| && Accepts(level, b.properties[i].schema, s)
    ensures Accepts(level, b, WithProperty(b, i, s))
  {
    var c := WithProperty(b, i, s);
    forall j | 0 <= j < |b.properties| ensures AcceptsProperty(level, b, c, j) {
      OwnAt(c.properties, j);
      if j != i {
        AcceptsItself(level, b.properties[j].schema);
      }
    }
    AcceptsAll(level, b, c);
  }

  /** Two steps that each pass also pass as one. */
  ghost predicate Composes(level: Level, a: Schema, b: Schema, c: Schema) {
    WellFormed(b) && WellFormed(c) && Accepts(level, a, b) && Accepts(level, b, c) ==> Accepts(level, a, c)
  }

  /**
   A version that passes through a `$ref` can hide a breaking change: the check lets both steps
   through and refuses their sum. It is so of exactly the middle versions that hold a `$ref`.
   */
  lemma {:induction false} TransitiveIffRefFree(b: Schema)
    requires WellFormed(b)
    ensures RefFree(b)
       <==> forall a, c :: WellFormed(a) ==> Composes(NoBreaking, a, b, c)
  {
    if RefFree(b) {
      forall a, c | WellFormed(a) ensures Composes(NoBreaking, a, b, c) {
        if Accepts(NoBreaking, a, b) && Accepts(NoBreaking, b, c) {
          AcceptsTransitive(NoBreaking, a, b, c);
        }
      }
    } else {
      var a, c := HiddenChange(b);
      assert !Composes(NoBreaking, a, b, c);
    }
  }

  // ----- a dropped property that comes back changed

  function WithoutProperty(s: Schema, i: nat): Schema
    requires i < |s.properties|
  {
    s.(properties := s.properties[..i] + s.properties[i + 1..])
  }

  lemma {:induction false} NotOwn(props: seq<Property>, name: string)
    requires forall i :: 0 <= i < |props| ==> props[i].name != name
    ensures Own(props, name) == None
  {
    if props == [] {
    } else {
      NotOwn(props[1..], name);
    }
  }

  lemma {:induction false} DroppedProperty(level: Level, a: Schema, i: nat)
    requires WellFormed(a) && a.ref == "" && i < |a.properties| && Droppable(a.properties[i])
    ensures WellFormed(WithoutProperty(a, i)) && Accepts(level, a, WithoutProperty(a, i))
  {
    var b := WithoutProperty(a, i);
    AsksNothingIff(level, a.properties[i].schema);
    forall j | 0 <= j < |a.properties| ensures AcceptsProperty(level, a, b, j) {
      if j == i {
        NotOwn(b.properties, a.properties[i].name);
      } else {
        OwnAt(b.properties, if j < i then j else j - 1);
        AcceptsItself(level, a.properties[j].schema);
      }
    }
    AcceptsAll(level, a, b);
  }

  lemma {:induction false} RestoredProperty(level: Level, a: Schema, i: nat, inner: Schema)
    requires WellFormed(a) && WellFormed(inner) && a.ref == "" && i < |a.properties|
    ensures Accepts(level, WithoutProperty(a, i), WithProperty(a, i, inner))
  {
    var b, c := WithoutProperty(a, i), WithProperty(a, i, inner);
    WithPropertyReads(a, i, inner);
    forall j | 0 <= j < |b.properties| ensures AcceptsProperty(level, b, c, j) {
      OwnAt(c.properties, if j < i then j else j + 1);
      AcceptsItself(level, b.properties[j].schema);
    }
    AcceptsAll(level, b, c);
  }

  lemma {:induction false} RefusedProperty(level: Level, a: Schema, c: Schema, i: nat)
    requires a.ref == "" && c.ref == "" && i < |a.properties| && !AcceptsProperty(level, a, c, i)
    ensures !Accepts(level, a, c)
  {
    AcceptsAll(level, a, c);
  }

  /** Two later versions: the first drops a droppable property of `a` unreported, the second brings it back as a `$ref`. */
  lemma {:induction false} DroppedAndChanged(level: Level, a: Schema) returns (b: Schema, c: Schema)
    requires WellFormed(a) && HasDroppable(a) && level != NoBreaking
    ensures WellFormed(b) && WellFormed(c)
    ensures Accepts(level, a, b) && Accepts(level, b, c) && !Accepts(level, a, c)
    decreases a
  {
    var p :| p in a.properties && (Droppable(p) || HasDroppable(p.schema));
    var i: nat :| i < |a.properties| && a.properties[i] == p;
    if Droppable(p) {
      b, c := WithoutProperty(a, i), WithProperty(a, i, Schema("other", [], []));
      DroppedHere(level, a, i);
    } else {
      var b', c' := DroppedAndChanged(level, p.schema);
      b, c := WithProperty(a, i, b'), WithProperty(a, i, c');
      DroppedBelow(level, a, i, b', c');
    }
  }

  lemma {:induction false} DroppedHere(level: Level, a: Schema, i: nat)
    requires WellFormed(a) && a.ref == "" && i < |a.properties| && Droppable(a.properties[i])
    requires level != NoBreaking
    ensures var b, c := WithoutProperty(a, i), WithProperty(a, i, Schema("other", [], []));
            && WellFormed(b) && WellFormed(c)
            && Accepts(level, a, b) && Accepts(level, b, c) && !Accepts(level, a, c)
  {
    var other := Schema("other", [], []);
    assert a.properties[i].schema.ref == "";
    assert !Accepts(level, a.properties[i].schema, other) && WellFormed(other);
    hide Accepts, WellFormed;
    DroppedProperty(level, a, i);
    RestoredProperty(level, a, i, other);
    WithPropertyReads(a, i, other);
    RefusedProperty(level, a, WithProperty(a, i, other), i);
  }

  lemma {:induction false} DroppedBelow(level: Level, a: Schema, i: nat, b': Schema, c': Schema)
    requires WellFormed(a) && a.ref == "" && i < |a.properties| && WellFormed(b') && WellFormed(c')
    requires var s := a.properties[i].schema; Accepts(level, s, b') && Accepts(level, b', c') && !Accepts(level, s, c')
    ensures var b, c := WithProperty(a, i, b'), WithProperty(a, i, c');
            && WellFormed(b) && WellFormed(c)
            && Accepts(level, a, b) && Accepts(level, b, c) && !Accepts(level, a, c)
  {
    hide Accepts, WellFormed;
    var b := WithProperty(a, i, b');
    WithPropertyReads(a, i, b');
    WithPropertyReads(a, i, c');
    ChangedProperty(level, a, i, b');
    ChangedProperty(level, b, i, c');
    assert WithProperty(b, i, c') == WithProperty(a, i, c');
    RefusedProperty(level, a, WithProperty(a, i, c'), i);
  }

  /**
   Empty reports, and reports free of changed references, compose from exactly the baselines that have
   nothing droppable.
   */
  lemma {:induction false} TransitiveIffNothingDroppable(level: Level, a: Schema)
    requires WellFormed(a) && level != NoBreaking
    ensures !HasDroppable(a) <==> forall b, c :: Composes(level, a, b, c)
  {
    if HasDroppable(a) {
      var b, c := DroppedAndChanged(level, a);
      assert !Composes(level, a, b, c);
    } else {
      forall b, c ensures Composes(level, a, b, c) {
        if WellFormed(b) && WellFormed(c) && Accepts(level, a, b) && Accepts(level, b, c) {
          AcceptsTransitive(level, a, b, c);
        }
      }
    }
  }

  /** The smallest case: a property called constructor is dropped, and comes back with a required field. */
  lemma {:induction false} SilentStepsDoNotAdd(context: seq<string>)
    ensures var a := Schema("", [], [Property("constructor", EMPTY)]);
            var c := Schema("", [], [Property("constructor", Schema("", ["x"], []))]);
            && Drift(a, EMPTY, context) == [] && Drift(EMPTY, c, context) == []
            && Drift(a, c, context) != []
  {
    var field := Schema("", ["x"], []);
    var a, c := Schema("", [], [Property("constructor", EMPTY)]), Schema("", [], [Property("constructor", field)]);
    assert Accepts(Silent, EMPTY, EMPTY);
    assert Read(EMPTY.properties, "constructor") == Some(EMPTY) && Read(c.properties, "constructor") == Some(field);
    assert Accepts(Silent, a, EMPTY) && Accepts(Silent, EMPTY, c);
    assert "x" in field.required && "x" !in EMPTY.required;
    assert !Accepts(Silent, EMPTY, field);
    assert a.properties[0] in a.properties && !Accepts(Silent, a, c);
    ClearIffAccepts(Silent, a, EMPTY, context);
    ClearIffAccepts(Silent, EMPTY, c, context);
    ClearIffAccepts(Silent, a, c, context);
    SilentIsEmpty(Drift(a, EMPTY, context));
    SilentIsEmpty(Drift(EMPTY, c, context));
    SilentIsEmpty(Drift(a, c, context));
  }

  // ----- the components

  const SCHEMAS := "#/components/schemas/"

  function SchemaPath(name: string): string {
    SCHEMAS + name
  }

  function SchemaContext(name: string): seq<string> {
    ["components/schemas/" + name]
  }

  function SchemasLost(baseline: seq<Property>, current: Option<seq<Property>>): seq<Change> {
    if baseline == [] then []
    else
      var name := baseline[|baseline| - 1].name;
      SchemasLost(baseline[..|baseline| - 1], current)
      + if Component(current, name).Some? then [] else [Change(Breaking, [SchemaPath(name)], SchemaRemoved(name))]
  }

  function SchemasDrift(baseline: seq<Property>, current: Option<seq<Property>>): seq<Change> {
    if baseline == [] then []
    else
      var p := baseline[|baseline| - 1];
      SchemasDrift(baseline[..|baseline| - 1], current)
      + match Component(current, p.name)
        case None => []
        case Some(s) => Drift(p.schema, s, SchemaContext(p.name))
  }

  /** `current?.[name]`. */
  function Component(schemas: Option<seq<Property>>, name: string): Option<Schema> {
    if schemas == None then None else Read(schemas.value, name)
  }

  method CompareComponents(baseline: Option<seq<Property>>, current: Option<seq<Property>>)
    returns (changes: seq<Change>)
    ensures baseline == None ==> changes == []
    ensures baseline.Some? ==> changes == SchemasLost(baseline.value, current) + SchemasDrift(baseline.value, current)
  {
    if baseline == None {
      return [];
    }
    var removed := RemovedSchemas(baseline.value, current);
    var changed := ChangedSchemas(baseline.value, current);
    return removed + changed;
  }

  method RemovedSchemas(schemas: seq<Property>, current: Option<seq<Property>>) returns (changes: seq<Change>)
    ensures changes == SchemasLost(schemas, current)
  {
    hide Component, SchemaPath;
    changes := [];
    for i := 0 to |schemas|
      invariant changes == SchemasLost(schemas[..i], current)
    {
      assert schemas[..i + 1][..i] == schemas[..i];
      if Component(current, schemas[i].name) == None {
        changes := changes + [Change(Breaking, [SchemaPath(schemas[i].name)], SchemaRemoved(schemas[i].name))];
      }
    }
    assert schemas[..|schemas|] == schemas;
  }

  method ChangedSchemas(schemas: seq<Property>, current: Option<seq<Property>>) returns (changes: seq<Change>)
    ensures changes == SchemasDrift(schemas, current)
  {
    hide Component, Drift, SchemaContext;
    changes := [];
    for i := 0 to |schemas|
      invariant changes == SchemasDrift(schemas[..i], current)
    {
      assert schemas[..i + 1][..i] == schemas[..i];
      var found := Component(current, schemas[i].name);
      if found.Some? {
        var inner := CompareSchemas(schemas[i].schema, found.value, SchemaContext(schemas[i].name));
        changes := changes + inner;
      }
    }
    assert schemas[..|schemas|] == schemas;
  }

  /** What the report on the components says of component `i`: it is gone, or it differs along a path. */
  ghost predicate ComponentDiffers(baseline: seq<Property>, current: Option<seq<Property>>, i: nat, x: Change) {
    && i < |baseline|
    && var name := baseline[i].name;
       match Component(current, name)
       case None => x == Change(Breaking, ["#/components/schemas/" + name], SchemaRemoved(name))
       case Some(s) =>
         exists p :: x.path == ["components/schemas/" + name] + p && DiffersAt(baseline[i].schema, s, p, x.kind, x.what)
  }

  /** The report lists exactly the components that are gone and the differences of the others, where they are. */
  lemma {:induction false} ComponentsDriftIsExact(baseline: seq<Property>, current: Option<seq<Property>>, x: Change)
    requires forall i :: 0 <= i < |baseline| ==> WellFormed(baseline[i].schema)
    ensures x in SchemasLost(baseline, current) + SchemasDrift(baseline, current)
       <==> exists i: nat :: ComponentDiffers(baseline, current, i, x)
  {
    if baseline == [] {
    } else {
      var n := |baseline| - 1;
      var rest := baseline[..n];
      ComponentsDriftIsExact(rest, current, x);
      LastComponent(baseline, current, x);
      hide SchemasLost, SchemasDrift, ComponentDiffers;
      forall i: nat
        ensures ComponentDiffers(baseline, current, i, x)
           <==> ComponentDiffers(rest, current, i, x) || (i == n && ComponentDiffers(baseline, current, n, x))
      {
        SameComponent(baseline, current, i, x);
      }
      assert ComponentDiffers(baseline, current, n, x) ==> exists i: nat :: ComponentDiffers(baseline, current, i, x);
    }
  }

  lemma {:induction false} SameComponent(baseline: seq<Property>, current: Option<seq<Property>>, i: nat, x: Change)
    requires baseline != []
    ensures ComponentDiffers(baseline, current, i, x)
       <==> || ComponentDiffers(baseline[..|baseline| - 1], current, i, x)
            || (i == |baseline| - 1 && ComponentDiffers(baseline, current, |baseline| - 1, x))
  {
    hide Component, DiffersAt;
  }

  lemma {:induction false} LastComponent(baseline: seq<Property>, current: Option<seq<Property>>, x: Change)
    requires baseline != [] && WellFormed(baseline[|baseline| - 1].schema)
    ensures var n := |baseline| - 1;
            x in SchemasLost(baseline, current) + SchemasDrift(baseline, current)
            <==> || x in SchemasLost(baseline[..n], current) + SchemasDrift(baseline[..n], current)
                 || ComponentDiffers(baseline, current, n, x)
  {
    var p := baseline[|baseline| - 1];
    if Component(current, p.name).Some? {
      DriftIsExact(p.schema, Component(current, p.name).value, SchemaContext(p.name), x);
    }
    hide Component, DiffersAt, Drift;
  }

  /** A consumer's way through a document: into a property, or on to the component a `$ref` names. */
  datatype Move = Into(name: string) | Follow

  function Resolve(schemas: seq<Property>, s: Schema, route: seq<Move>): Option<Schema>
    decreases |route|
  {
    if route == [] then Some(s)
    else
      var next := match route[0]
                  case Into(name) => if s.ref == "" then Own(s.properties, name) else None
                  case Follow => Target(schemas, s.ref);
      if next.Some? then Resolve(schemas, next.value, route[1..]) else None
  }

  function Target(schemas: seq<Property>, ref: string): Option<Schema> {
    if SCHEMAS <= ref then Own(schemas, ref[|SCHEMAS|..]) else None
  }

  /** No component, and no property of one, can be dropped unreported. */
  ghost predicate NothingDroppable(schemas: seq<Property>) {
    !HasDroppable(Schema("", [], schemas))
  }

  /** The report on the components has neither a breaking change nor a changed reference. */
  ghost predicate Passes(baseline: seq<Property>, current: seq<Property>) {
    Clear(NoBreakingNorReference, SchemasLost(baseline, Some(current)) + SchemasDrift(baseline, Some(current)))
  }

  lemma {:induction false} PassingSchemas(baseline: seq<Property>, current: Option<seq<Property>>, i: nat)
    requires i < |baseline|
    requires Clear(NoBreakingNorReference, SchemasLost(baseline, current))
    requires Clear(NoBreakingNorReference, SchemasDrift(baseline, current))
    ensures Component(current, baseline[i].name).Some?
    ensures Accepts(NoBreakingNorReference, baseline[i].schema, Component(current, baseline[i].name).value)
  {
    var last := |baseline| - 1;
    var p := baseline[last];
    var lost := Change(Breaking, [SchemaPath(p.name)], SchemaRemoved(p.name));
    ClearJoins(NoBreakingNorReference, SchemasLost(baseline[..last], current),
               if Component(current, p.name).Some? then [] else [lost]);
    ClearOne(NoBreakingNorReference, lost);
    var found := Component(current, p.name).value;
    ClearJoins(NoBreakingNorReference, SchemasDrift(baseline[..last], current),
               Drift(p.schema, found, SchemaContext(p.name)));
    if i == last {
      ClearIffAccepts(NoBreakingNorReference, p.schema, found, SchemaContext(p.name));
    } else {
      PassingSchemas(baseline[..last], current, i);
    }
  }

  /**
   Soundness over whole documents, cyclic references included: when the components pass, every
   route through properties and references that the baseline resolves, from any component, the
   current document resolves too, to a schema with the same `$ref` that requires at least as much.
   */
  lemma {:induction false} RoutesAreKept(baseline: seq<Property>, current: seq<Property>, name: string,
                                         route: seq<Move>)
    requires Passes(baseline, current) && NothingDroppable(baseline)
    requires Own(baseline, name).Some? && Resolve(baseline, Own(baseline, name).value, route).Some?
    ensures Own(current, name).Some?
    ensures var was, now := Resolve(baseline, Own(baseline, name).value, route),
                            Resolve(current, Own(current, name).value, route);
            && now.Some? && now.value.ref == was.value.ref
            && (was.value.ref == "" ==> forall r <- was.value.required :: r in now.value.required)
  {
    ClearJoins(NoBreakingNorReference, SchemasLost(baseline, Some(current)), SchemasDrift(baseline, Some(current)));
    KeptComponent(baseline, current, name);
    KeptRoute(baseline, current, Own(baseline, name).value, Own(current, name).value, route);
  }

  lemma {:induction false} KeptComponent(baseline: seq<Property>, current: seq<Property>, name: string)
    requires Clear(NoBreakingNorReference, SchemasLost(baseline, Some(current)))
    requires Clear(NoBreakingNorReference, SchemasDrift(baseline, Some(current)))
    requires NothingDroppable(baseline) && Own(baseline, name).Some?
    ensures Own(current, name).Some? && !HasDroppable(Own(baseline, name).value)
    ensures Accepts(NoBreakingNorReference, Own(baseline, name).value, Own(current, name).value)
  {
    var i := OwnIndex(baseline, name);
    PassingSchemas(baseline, Some(current), i);
    assert baseline[i] in Schema("", [], baseline).properties;
    AsksNothingIff(NoBreakingNorReference, baseline[i].schema);
  }

  lemma {:induction false} KeptRoute(baseline: seq<Property>, current: seq<Property>, a: Schema, b: Schema,
                                     route: seq<Move>)
    requires Clear(NoBreakingNorReference, SchemasLost(baseline, Some(current)))
    requires Clear(NoBreakingNorReference, SchemasDrift(baseline, Some(current)))
    requires NothingDroppable(baseline) && !HasDroppable(a)
    requires Accepts(NoBreakingNorReference, a, b)
    requires Resolve(baseline, a, route).Some?
    ensures var was, now := Resolve(baseline, a, route), Resolve(current, b, route);
            && now.Some? && now.value.ref == was.value.ref
            && (was.value.ref == "" ==> forall r <- was.value.required :: r in now.value.required)
    decreases |route|
  {
    if route == [] {
    } else {
      match route[0]
      case Into(name) =>
        var i := OwnIndex(a.properties, name);
        AcceptsAll(NoBreakingNorReference, a, b);
        assert AcceptsProperty(NoBreakingNorReference, a, b, i);
        assert a.properties[i] in a.properties;
        AsksNothingIff(NoBreakingNorReference, a.properties[i].schema);
        KeptRoute(baseline, current, Own(a.properties, name).value, Own(b.properties, name).value, route[1..]);
      case Follow =>
        var name := a.ref[|SCHEMAS|..];
        KeptComponent(baseline, current, name);
        KeptRoute(baseline, current, Own(baseline, name).value, Own(current, name).value, route[1..]);
    }
  }

  // ----- the routes a passing report can lose

  function Intos(p: seq<string>): seq<Move> {
    if p == [] then [] else [Into(p[0])] + Intos(p[1..])
  }

  lemma {:induction false} ResolvesPath(schemas: seq<Property>, s: Schema, p: seq<string>)
    ensures Resolve(schemas, s, Intos(p)).Some? <==> HasPath(s, p)
    decreases |p|
  {
    if p != [] && s.ref == "" && Own(s.properties, p[0]).Some? {
      ResolvesPath(schemas, Own(s.properties, p[0]).value, p[1..]);
      assert Intos(p)[1..] == Intos(p[1..]);
    }
  }

  /** Without the droppable property, its path is gone and nothing is reported. */
  lemma {:induction false} LostPath(level: Level, a: Schema) returns (b: Schema, p: seq<string>)
    requires WellFormed(a) && HasDroppable(a)
    ensures WellFormed(b) && b.ref == "" && Accepts(level, a, b)
    ensures p != [] && HasPath(a, p) && !HasPath(b, p)
    decreases a
  {
    var x :| x in a.properties && (Droppable(x) || HasDroppable(x.schema));
    var i: nat :| i < |a.properties| && a.properties[i] == x;
    if Droppable(x) {
      b, p := WithoutProperty(a, i), [x.name];
      LostHere(level, a, i);
    } else {
      var inner, rest := LostPath(level, x.schema);
      b, p := WithProperty(a, i, inner), [x.name] + rest;
      LostBelow(level, a, i, inner, rest);
    }
  }

  lemma {:induction false} LostHere(level: Level, a: Schema, i: nat)
    requires WellFormed(a) && a.ref == "" && i < |a.properties| && Droppable(a.properties[i])
    ensures var b, p := WithoutProperty(a, i), [a.properties[i].name];
            && WellFormed(b) && Accepts(level, a, b)
            && HasPath(a, p) && !HasPath(b, p)
  {
    OwnAt(a.properties, i);
    DroppedProperty(level, a, i);
    hide Accepts;
    NotOwn(WithoutProperty(a, i).properties, a.properties[i].name);
  }

  lemma {:induction false} LostBelow(level: Level, a: Schema, i: nat, inner: Schema, rest: seq<string>)
    requires WellFormed(a) && a.ref == "" && i < |a.properties| && WellFormed(inner)
    requires var s := a.properties[i].schema; Accepts(level, s, inner) && HasPath(s, rest) && !HasPath(inner, rest)
    ensures var b, p := WithProperty(a, i, inner), [a.properties[i].name] + rest;
            && WellFormed(b) && Accepts(level, a, b)
            && HasPath(a, p) && !HasPath(b, p)
  {
    OwnAt(a.properties, i);
    hide Accepts, WellFormed;
    WithPropertyReads(a, i, inner);
    ChangedProperty(level, a, i, inner);
    var p := [a.properties[i].name] + rest;
    assert p[0] == a.properties[i].name && p[1..] == rest;
  }

  lemma {:induction false} AcceptedPasses(baseline: seq<Property>, current: seq<Property>)
    requires forall p <- baseline ::
               && Read(current, p.name).Some?
               && Accepts(NoBreakingNorReference, p.schema, Read(current, p.name).value)
    ensures Clear(NoBreakingNorReference, SchemasLost(baseline, Some(current)))
    ensures Clear(NoBreakingNorReference, SchemasDrift(baseline, Some(current)))
  {
    if baseline == [] {
    } else {
      var last := |baseline| - 1;
      var p := baseline[last];
      assert p in baseline && forall x <- baseline[..last] :: x in baseline;
      AcceptedPasses(baseline[..last], current);
      var found := Read(current, p.name).value;
      ClearIffAccepts(NoBreakingNorReference, p.schema, found, SchemaContext(p.name));
      ClearJoins(NoBreakingNorReference, SchemasDrift(baseline[..last], Some(current)),
                 Drift(p.schema, found, SchemaContext(p.name)));
      assert SchemasLost(baseline[..last], Some(current)) + [] == SchemasLost(baseline[..last], Some(current));
    }
  }

  ghost predicate Keeps(baseline: seq<Property>, current: seq<Property>, name: string, route: seq<Move>) {
    Own(baseline, name).Some? && Resolve(baseline, Own(baseline, name).value, route).Some? ==>
      Own(current, name).Some? && Resolve(current, Own(current, name).value, route).Some?
  }

  /** A passing report keeps every route of exactly the documents in which nothing is droppable. */
  lemma {:induction false} RoutesAreKeptIff(baseline: seq<Property>)
    requires WellFormed(Schema("", [], baseline))
    ensures NothingDroppable(baseline)
       <==> forall current, name, route :: Passes(baseline, current) ==> Keeps(baseline, current, name, route)
  {
    if NothingDroppable(baseline) {
      forall current, name, route | Passes(baseline, current) ensures Keeps(baseline, current, name, route) {
        if Own(baseline, name).Some? && Resolve(baseline, Own(baseline, name).value, route).Some? {
          RoutesAreKept(baseline, current, name, route);
        }
      }
    } else {
      var whole := Schema("", [], baseline);
      var b, p := LostPath(NoBreakingNorReference, whole);
      var current := b.properties;
      AcceptedPasses(baseline, current);
      ClearJoins(NoBreakingNorReference, SchemasLost(baseline, Some(current)), SchemasDrift(baseline, Some(current)));
      ResolvesPath(baseline, Own(baseline, p[0]).value, p[1..]);
      if Own(current, p[0]).Some? {
        ResolvesPath(current, Own(current, p[0]).value, p[1..]);
      }
      assert Passes(baseline, current) && !Keeps(baseline, current, p[0], Intos(p[1..]));
    }
  }
}
