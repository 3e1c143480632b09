/**
 The static query budget (backend/src/graphql/queryBudget.ts): cost, depth and aliases of a
 GraphQL operation, measured over its selection tree and named fragments before execution.
 The inner `walk` is a method of a class holding the two counters it captures; it is proved
 against a recursive measure, and the measure against fragment inlining.
 */
module QueryBudget {
  import opened Wrappers

  // ----- documents and schemas

  datatype ArgumentValue = IntLiteral(n: int) | NullLiteral | Variable(name: string) | OtherLiteral

  datatype Argument = Argument(name: string, value: ArgumentValue)

  /** A field without a selection set carries the empty one, which the grammar otherwise excludes. */
  datatype Selection =
    | Field(name: string, alias: Option<string>, arguments: seq<Argument>, selectionSet: seq<Selection>)
    | InlineFragment(condition: Option<string>, body: seq<Selection>)
    | FragmentSpread(fragment: string)

  datatype Fragment = Fragment(condition: string, body: seq<Selection>)

  datatype Definition =
    | FragmentDefinition(name: string, fragment: Fragment)
    | OperationDefinition(isQuery: bool, selectionSet: seq<Selection>)

  /** The named type of a field, and whether the field holds a list of it. */
  datatype FieldType = FieldType(named: string, isList: bool)

  datatype TypeDefinition = ObjectType(fields: map<string, FieldType>) | OtherType

  datatype Document = Document(fragments: map<string, Fragment>, types: map<string, TypeDefinition>) {
    predicate IsObject(typeName: string) {
      typeName in types && types[typeName].ObjectType?
    }

    /** The named type of a field of `parent` when both are object types. */
    function ChildType(parent: string, field: string): Option<string> {
      if IsObject(parent) && field in types[parent].fields && IsObject(types[parent].fields[field].named)
      then Some(types[parent].fields[field].named)
      else None
    }

    /** The field holds a list. */
    predicate IsListOf(parent: string, field: string) {
      IsObject(parent) && field in types[parent].fields && types[parent].fields[field].isList
    }

    /** The fragment a spread resolves to, when the walk would enter it. */
    predicate Enterable(fragment: string) {
      fragment in fragments && IsObject(fragments[fragment].condition)
    }
  }

  // ----- the constants of the policy

  const DEFAULT_LIST_SIZE := 50

  predicate IsListField(key: string) {
    key == "Query.loans" || key == "Query.scores" || key == "Query.remittances"
  }

  function FieldWeight(key: string): nat {
    if IsListField(key) then 10
    else if key == "Query.poolBalance" || key == "Query.totalOutstanding" then 25
    else 1
  }

  function Key(parent: string, field: string): string {
    parent + "." + field
  }

  predicate IsIntrospection(field: string) {
    "__" <= field
  }

  function Max(a: int, b: int): int {
    if a >= b then a else b
  }

  /** arguments.find(a => a.name === 'limit') */
  function LimitArgument(arguments: seq<Argument>): Option<ArgumentValue> {
    if arguments == [] then None
    else if arguments[0].name == "limit" then Some(arguments[0].value)
    else LimitArgument(arguments[1..])
  }

  function Multiplier(key: string, arguments: seq<Argument>): (m: int)
    ensures m >= 1
  {
    if !IsListField(key) then 1
    else match LimitArgument(arguments)
      case Some(IntLiteral(n)) => Max(1, n)
      case _ => DEFAULT_LIST_SIZE
  }

  // ----- the measure

  datatype Measure = Measure(cost: nat, aliases: nat, depth: nat) {
    function Plus(that: Measure): Measure {
      Measure(cost + that.cost, aliases + that.aliases, Max(depth, that.depth))
    }
  }

  const NOTHING := Measure(0, 0, 0)

  /** What `walk` adds up for a selection set; fragments already on the path are in `seen`. */
  function MeasureSet(doc: Document, selections: seq<Selection>, parent: string, depth: nat, seen: set<string>): Measure
    decreases doc.fragments.Keys - seen, selections, 0
  {
    if selections == [] then NOTHING
    else MeasureSelection(doc, selections[0], parent, depth, seen).Plus(MeasureSet(doc, selections[1..], parent, depth, seen))
  }

  function MeasureSelection(doc: Document, sel: Selection, parent: string, depth: nat, seen: set<string>): Measure
    decreases doc.fragments.Keys - seen, sel, 1
  {
    match sel
    case Field(name, alias, arguments, selectionSet) =>
      if IsIntrospection(name) then NOTHING
      else
        var inner :=
          match doc.ChildType(parent, name)
          case Some(child) => MeasureSet(doc, selectionSet, child, depth + 1, seen)
          case None => NOTHING;
        FieldMeasure(Key(parent, name), alias.Some?, arguments, depth, inner)
    case InlineFragment(_, body) =>
      MeasureSet(doc, body, parent, depth, seen)
    case FragmentSpread(name) =>
      if name in seen || !doc.Enterable(name) then NOTHING
      else
        var f := doc.fragments[name];
        MeasureSet(doc, f.body, f.condition, depth, seen + {name})
  }

  function FieldMeasure(key: string, aliased: bool, arguments: seq<Argument>, depth: nat, inner: Measure): Measure {
    MulNonNegative(Multiplier(key, arguments), inner.cost);
    Measure(FieldWeight(key) + Multiplier(key, arguments) * inner.cost,
            (if aliased then 1 else 0) + inner.aliases,
            Max(depth, inner.depth))
  }

  lemma {:induction false} MulNonNegative(m: int, n: nat)
    requires m >= 1
    ensures m * n >= n
  {
  }

  // ----- the source's walk

  /** The counters captured by `walk`, over the document it closes over. */
  class Meter {
    const doc: Document
    var aliases: nat
    var maxDepth: nat

    constructor (doc: Document)
      ensures this.doc == doc && aliases == 0 && maxDepth == 0
    {
      this.doc := doc;
      aliases, maxDepth := 0, 0;
    }

    method Walk(selections: seq<Selection>, parent: string, depth: nat, seen: set<string>) returns (total: nat)
      modifies this
      ensures total == MeasureSet(doc, selections, parent, depth, seen).cost
      ensures aliases == old(aliases) + MeasureSet(doc, selections, parent, depth, seen).aliases
      ensures maxDepth == Max(old(maxDepth), MeasureSet(doc, selections, parent, depth, seen).depth)
      decreases doc.fragments.Keys - seen, selections, 0
    {
      total := 0;
      ghost var all := MeasureSet(doc, selections, parent, depth, seen);
      for i := 0 to |selections|
        invariant total + MeasureSet(doc, selections[i..], parent, depth, seen).cost == all.cost
        invariant aliases + MeasureSet(doc, selections[i..], parent, depth, seen).aliases == old(aliases) + all.aliases
        invariant Max(maxDepth, MeasureSet(doc, selections[i..], parent, depth, seen).depth) == Max(old(maxDepth), all.depth)
      {
        assert selections[i..][0] == selections[i] && selections[i..][1..] == selections[i + 1..];
        var cost := Visit(selections[i], parent, depth, seen);
        hide MeasureSelection;
        total := total + cost;
      }
    }

    /** One turn of the loop of `walk`. */
    method Visit(sel: Selection, parent: string, depth: nat, seen: set<string>) returns (cost: nat)
      modifies this
      ensures cost == MeasureSelection(doc, sel, parent, depth, seen).cost
      ensures aliases == old(aliases) + MeasureSelection(doc, sel, parent, depth, seen).aliases
      ensures maxDepth == Max(old(maxDepth), MeasureSelection(doc, sel, parent, depth, seen).depth)
      decreases doc.fragments.Keys - seen, sel, 1
    {
      match sel
      case Field(name, alias, arguments, selectionSet) =>
        if IsIntrospection(name) {
          return 0;
        }
        if alias.Some? {
          aliases := aliases + 1;
        }
        maxDepth := Max(maxDepth, depth);
        var key := Key(parent, name);
        cost := FieldWeight(key);
        var child := doc.ChildType(parent, name);
        if selectionSet != [] && child.Some? {
          var multiplier := Multiplier(key, arguments);
          var inner := Walk(selectionSet, child.value, depth + 1, seen);
          MulNonNegative(multiplier, inner);
          cost := cost + multiplier * inner;
        }
      case InlineFragment(_, body) =>
        cost := Walk(body, parent, depth, seen);
      case FragmentSpread(name) =>
        if name in seen || !doc.Enterable(name) {
          return 0;
        }
        var f := doc.fragments[name];
        cost := Walk(f.body, f.condition, depth, seen + {name});
    }
  }

  /** The fragment table: a later definition of a name replaces an earlier one. */
  function FragmentTable(definitions: seq<Definition>): map<string, Fragment> {
    if definitions == [] then map[]
    else
      var table := FragmentTable(definitions[..|definitions| - 1]);
      match definitions[|definitions| - 1]
      case FragmentDefinition(name, f) => table[name := f]
      case _ => table
  }

  method MeasureOperation(definitions: seq<Definition>, types: map<string, TypeDefinition>,
                          selectionSet: seq<Selection>, rootType: string)
    returns (result: Measure)
    ensures result == MeasureSet(Document(FragmentTable(definitions), types), selectionSet, rootType, 1, {})
  {
    var fragments: map<string, Fragment> := map[];
    for i := 0 to |definitions|
      invariant fragments == FragmentTable(definitions[..i])
    {
      assert definitions[..i + 1][..i] == definitions[..i];
      match definitions[i]
      case FragmentDefinition(name, f) => fragments := fragments[name := f];
      case OperationDefinition(_, _) =>
    }
    assert definitions[..|definitions|] == definitions;
    var meter := new Meter(Document(fragments, types));
    var cost := meter.Walk(selectionSet, rootType, 1, {});
    result := Measure(cost, meter.aliases, meter.maxDepth);
  }

  datatype Limits = Limits(maxDepth: nat, maxAliases: nat, maxCost: nat)

  /** createQueryBudgetRule: what an operation must satisfy not to be reported. */
  predicate Accepts(limits: Limits, operation: Definition, m: Measure) {
    operation.OperationDefinition? && operation.isQuery ==>
      m.depth <= limits.maxDepth && m.aliases <= limits.maxAliases && m.cost <= limits.maxCost
  }

  // ----- fragment transparency

  /** Every fragment spread in the tree, at any depth, has a rank below `bound`. */
  ghost predicate SpreadsBelow(rank: string -> nat, selections: seq<Selection>, bound: nat)
    decreases selections, 0
  {
    selections == [] || (SpreadBelow(rank, selections[0], bound) && SpreadsBelow(rank, selections[1..], bound))
  }

  ghost predicate SpreadBelow(rank: string -> nat, sel: Selection, bound: nat)
    decreases sel, 1
  {
    match sel
    case Field(_, _, _, sub) => SpreadsBelow(rank, sub, bound)
    case InlineFragment(_, body) => SpreadsBelow(rank, body, bound)
    case FragmentSpread(name) => rank(name) < bound
  }

  /** No fragment reaches itself: each one only spreads fragments of lower rank. */
  ghost predicate Acyclic(doc: Document, rank: string -> nat) {
    forall name :: name in doc.fragments ==> SpreadsBelow(rank, doc.fragments[name].body, rank(name))
  }

  /** On an acyclic document the names already on the path never matter. */
  lemma {:induction false} SeenIrrelevant(doc: Document, rank: string -> nat, bound: nat,
                                          selections: seq<Selection>, parent: string, depth: nat, seen: set<string>)
    requires Acyclic(doc, rank) && SpreadsBelow(rank, selections, bound)
    requires forall name :: name in seen ==> rank(name) >= bound
    ensures MeasureSet(doc, selections, parent, depth, seen) == MeasureSet(doc, selections, parent, depth, {})
    decreases bound, selections, 0
  {
    if selections == [] {
    } else {
      SeenIrrelevantOne(doc, rank, bound, selections[0], parent, depth, seen);
      SeenIrrelevant(doc, rank, bound, selections[1..], parent, depth, seen);
    }
  }

  lemma {:induction false} SeenIrrelevantOne(doc: Document, rank: string -> nat, bound: nat,
                                             sel: Selection, parent: string, depth: nat, seen: set<string>)
    requires Acyclic(doc, rank) && SpreadBelow(rank, sel, bound)
    requires forall name :: name in seen ==> rank(name) >= bound
    ensures MeasureSelection(doc, sel, parent, depth, seen) == MeasureSelection(doc, sel, parent, depth, {})
    decreases bound, sel, 1
  {
    hide FieldMeasure;
    match sel
    case Field(name, _, _, sub) =>
      var child := doc.ChildType(parent, name);
      if child.Some? {
        SeenIrrelevant(doc, rank, bound, sub, child.value, depth + 1, seen);
      }
    case InlineFragment(_, body) =>
      SeenIrrelevant(doc, rank, bound, body, parent, depth, seen);
    case FragmentSpread(name) =>
      if doc.Enterable(name) {
        var f := doc.fragments[name];
        SeenIrrelevant(doc, rank, rank(name), f.body, f.condition, depth, seen + {name});
        SeenIrrelevant(doc, rank, rank(name), f.body, f.condition, depth, {} + {name});
      }
  }

  /** The query with every spread replaced by the body of its fragment. */
  ghost function Expand(doc: Document, rank: string -> nat, bound: nat, selections: seq<Selection>): seq<Selection>
    requires Acyclic(doc, rank) && SpreadsBelow(rank, selections, bound)
    decreases bound, selections, 0
  {
    if selections == [] then []
    else [ExpandOne(doc, rank, bound, selections[0])] + Expand(doc, rank, bound, selections[1..])
  }

  ghost function ExpandOne(doc: Document, rank: string -> nat, bound: nat, sel: Selection): Selection
    requires Acyclic(doc, rank) && SpreadBelow(rank, sel, bound)
    decreases bound, sel, 1
  {
    match sel
    case Field(_, _, _, sub) => sel.(selectionSet := Expand(doc, rank, bound, sub))
    case InlineFragment(condition, body) => InlineFragment(condition, Expand(doc, rank, bound, body))
    case FragmentSpread(name) =>
      if name in doc.fragments
      then InlineFragment(Some(doc.fragments[name].condition), Expand(doc, rank, rank(name), doc.fragments[name].body))
      else InlineFragment(None, [])
  }

  ghost predicate SpreadFree(selections: seq<Selection>)
    decreases selections, 0
  {
    selections == [] || (SpreadFreeOne(selections[0]) && SpreadFree(selections[1..]))
  }

  ghost predicate SpreadFreeOne(sel: Selection)
    decreases sel, 1
  {
    match sel
    case Field(_, _, _, sub) => SpreadFree(sub)
    case InlineFragment(_, body) => SpreadFree(body)
    case FragmentSpread(_) => false
  }

  /** Every spread of a defined fragment names a fragment on the type it is spread in. */
  ghost predicate ConditionsMatch(doc: Document, selections: seq<Selection>, parent: string)
    decreases selections, 0
  {
    selections == [] || (ConditionMatches(doc, selections[0], parent) && ConditionsMatch(doc, selections[1..], parent))
  }

  ghost predicate ConditionMatches(doc: Document, sel: Selection, parent: string)
    decreases sel, 1
  {
    match sel
    case Field(name, _, _, sub) =>
      doc.ChildType(parent, name).Some? ==> ConditionsMatch(doc, sub, doc.ChildType(parent, name).value)
    case InlineFragment(_, body) => ConditionsMatch(doc, body, parent)
    case FragmentSpread(name) =>
      name in doc.fragments ==> doc.fragments[name].condition == parent && doc.IsObject(parent)
  }

  ghost predicate WellConditioned(doc: Document) {
    forall name :: name in doc.fragments ==>
      ConditionsMatch(doc, doc.fragments[name].body, doc.fragments[name].condition)
  }

  /** Cost, depth and aliases of a query equal those of its expansion ... */
  lemma {:induction false} FragmentsAreTransparent(doc: Document, rank: string -> nat, bound: nat,
                                                   selections: seq<Selection>, parent: string, depth: nat)
    requires Acyclic(doc, rank) && SpreadsBelow(rank, selections, bound)
    requires WellConditioned(doc) && ConditionsMatch(doc, selections, parent)
    ensures MeasureSet(doc, selections, parent, depth, {}) == MeasureSet(doc, Expand(doc, rank, bound, selections), parent, depth, {})
    decreases bound, selections, 0
  {
    if selections == [] {
    } else {
      assert Expand(doc, rank, bound, selections)[1..] == Expand(doc, rank, bound, selections[1..]);
      FragmentIsTransparent(doc, rank, bound, selections[0], parent, depth);
      FragmentsAreTransparent(doc, rank, bound, selections[1..], parent, depth);
    }
  }

  lemma {:induction false} FragmentIsTransparent(doc: Document, rank: string -> nat, bound: nat,
                                                 sel: Selection, parent: string, depth: nat)
    requires Acyclic(doc, rank) && SpreadBelow(rank, sel, bound)
    requires WellConditioned(doc) && ConditionMatches(doc, sel, parent)
    ensures MeasureSelection(doc, sel, parent, depth, {})
         == MeasureSelection(doc, ExpandOne(doc, rank, bound, sel), parent, depth, {})
    decreases bound, sel, 1
  {
    hide FieldMeasure;
    match sel
    case Field(name, _, _, sub) =>
      var child := doc.ChildType(parent, name);
      if child.Some? {
        FragmentsAreTransparent(doc, rank, bound, sub, child.value, depth + 1);
      }
    case InlineFragment(_, body) =>
      FragmentsAreTransparent(doc, rank, bound, body, parent, depth);
    case FragmentSpread(name) =>
      if name in doc.fragments {
        var body := doc.fragments[name].body;
        SeenIrrelevant(doc, rank, rank(name), body, parent, depth, {} + {name});
        FragmentsAreTransparent(doc, rank, rank(name), body, parent, depth);
      } else {
        assert MeasureSet(doc, [], parent, depth, {}) == NOTHING;
      }
  }

  /** ... which has no spread left anywhere. */
  lemma {:induction false} ExpansionIsSpreadFree(doc: Document, rank: string -> nat, bound: nat,
                                                 selections: seq<Selection>)
    requires Acyclic(doc, rank) && SpreadsBelow(rank, selections, bound)
    ensures SpreadFree(Expand(doc, rank, bound, selections))
    decreases bound, selections
  {
    if selections == [] {
    } else {
      var expanded := Expand(doc, rank, bound, selections);
      assert expanded[1..] == Expand(doc, rank, bound, selections[1..]);
      ExpansionIsSpreadFree(doc, rank, bound, selections[1..]);
      match selections[0]
      case Field(_, _, _, sub) => ExpansionIsSpreadFree(doc, rank, bound, sub);
      case InlineFragment(_, body) => ExpansionIsSpreadFree(doc, rank, bound, body);
      case FragmentSpread(name) =>
        if name in doc.fragments {
          ExpansionIsSpreadFree(doc, rank, rank(name), doc.fragments[name].body);
        }
    }
  }
}
