/**
 Soundness of the query budget. Execution follows the GraphQL specification (October 2021,
 section 6.3): fields are collected under a set of visited fragments, fields with the same
 response key are merged, and their selection sets are concatenated. The list resolvers
 (backend/src/graphql/resolvers.ts) decide how many rows a page holds. The measured cost
 bounds the number of field values of any response.
 */
module QueryExecution {
  import opened Wrappers
  import opened QueryBudget

  // ----- rows a list resolver may return

  /** Values of the variables a query is executed with; a missing or null one is None. */
  type Variables = map<string, Option<int>>

  /** The `limit` a resolver receives. */
  function ResolvedLimit(arguments: seq<Argument>, variables: Variables): Option<int> {
    match LimitArgument(arguments)
    case Some(IntLiteral(n)) => Some(n)
    case Some(Variable(name)) => if name in variables then variables[name] else None
    case _ => None
  }

  /** Math.min(args.limit || 10, 100) rows at most; a negative SQL limit is an error and yields none. */
  function MaxRows(arguments: seq<Argument>, variables: Variables): nat {
    var limit := match ResolvedLimit(arguments, variables)
      case Some(n) => if n == 0 then 10 else n
      case None => 10;
    if limit < 0 then 0 else if limit > 100 then 100 else limit
  }

  /** The limits the budget prices correctly: absent, null, or a literal other than zero. */
  predicate LimitPriced(arguments: seq<Argument>) {
    match LimitArgument(arguments)
    case Some(IntLiteral(n)) => n != 0
    case Some(Variable(_)) => false
    case _ => true
  }

  /** The multiplier of a list field covers every page its resolver can return exactly when the limit is priced. */
  lemma {:induction false} MultiplierCoversRowsIff(key: string, arguments: seq<Argument>)
    requires IsListField(key)
    ensures LimitPriced(arguments)
       <==> forall variables: Variables :: MaxRows(arguments, variables) <= Multiplier(key, arguments)
  {
    match LimitArgument(arguments)
    case Some(Variable(name)) =>
      var variables: Variables := map[name := Some(100)];
      assert MaxRows(arguments, variables) == 100;
    case Some(IntLiteral(n)) =>
      if n == 0 {
        var variables: Variables := map[];
        assert MaxRows(arguments, variables) == 10;
      }
    case _ =>
  }

  // ----- collecting fields

  datatype Collected = Collected(fields: seq<Selection>, visited: set<string>)

  predicate Applies(condition: string, typeName: string) {
    condition == typeName
  }

  predicate AllFields(fields: seq<Selection>) {
    forall i :: 0 <= i < |fields| ==> fields[i].Field? && !IsIntrospection(fields[i].name)
  }

  /** CollectFields: the fields selected on an object of type `typeName`, introspection left aside. */
  function Collect(doc: Document, selections: seq<Selection>, typeName: string, visited: set<string>): (c: Collected)
    ensures visited <= c.visited && AllFields(c.fields)
    decreases doc.fragments.Keys - visited, selections, 0
  {
    if selections == [] then Collected([], visited)
    else
      var first := CollectOne(doc, selections[0], typeName, visited);
      var rest := Collect(doc, selections[1..], typeName, first.visited);
      Collected(first.fields + rest.fields, rest.visited)
  }

  function CollectOne(doc: Document, sel: Selection, typeName: string, visited: set<string>): (c: Collected)
    ensures visited <= c.visited && AllFields(c.fields)
    decreases doc.fragments.Keys - visited, sel, 1
  {
    match sel
    case Field(name, _, _, _) =>
      Collected(if IsIntrospection(name) then [] else [sel], visited)
    case InlineFragment(condition, body) =>
      if condition.Some? && !Applies(condition.value, typeName) then Collected([], visited)
      else Collect(doc, body, typeName, visited)
    case FragmentSpread(name) =>
      if name in visited then Collected([], visited)
      else if name !in doc.fragments || !Applies(doc.fragments[name].condition, typeName)
      then Collected([], visited + {name})
      else Collect(doc, doc.fragments[name].body, typeName, visited + {name})
  }

  function ResponseKey(f: Selection): string
    requires f.Field?
  {
    match f.alias
    case Some(a) => a
    case None => f.name
  }

  /** MergeSelectionSets for one response key. */
  function Merged(fields: seq<Selection>, key: string): seq<Selection>
    requires AllFields(fields)
  {
    if fields == [] then []
    else (if ResponseKey(fields[0]) == key then fields[0].selectionSet else []) + Merged(fields[1..], key)
  }

  function Others(fields: seq<Selection>, key: string): seq<Selection>
    requires AllFields(fields)
    ensures AllFields(Others(fields, key))
  {
    if fields == [] then []
    else if ResponseKey(fields[0]) == key then Others(fields[1..], key)
    else [fields[0]] + Others(fields[1..], key)
  }

  // ----- responses

  /** A completed value: a scalar or null, an object with one entry per response key, or the rows of a list. */
  datatype Response =
    | Leaf
    | Object(entries: seq<Entry>)
    | Rows(items: seq<Response>)

  datatype Entry = Entry(key: string, value: Response)

  /** The number of field values in a response. */
  function Values(r: Response): nat
    decreases r, 0
  {
    match r
    case Leaf => 0
    case Object(entries) => EntryValues(entries)
    case Rows(items) => ItemValues(items)
  }

  function EntryValues(entries: seq<Entry>): nat
    decreases entries, 1
  {
    if entries == [] then 0 else 1 + Values(entries[0].value) + EntryValues(entries[1..])
  }

  function ItemValues(items: seq<Response>): nat
    decreases items, 1
  {
    if items == [] then 0 else Values(items[0]) + ItemValues(items[1..])
  }

  /** Validation (overlapping fields can be merged): one response key, one field with the same arguments in any order. */
  predicate Mergeable(fields: seq<Selection>)
    requires AllFields(fields)
  {
    forall i, j :: 0 <= i < |fields| && 0 <= j < |fields| && ResponseKey(fields[i]) == ResponseKey(fields[j])
      ==> fields[i].name == fields[j].name && LimitArgument(fields[i].arguments) == LimitArgument(fields[j].arguments)
  }

  predicate DistinctKeys(entries: seq<Entry>) {
    forall i, j :: 0 <= i < j < |entries| ==> entries[i].key != entries[j].key
  }

  /**
   `r` may answer `selections` on an object of type `typeName` whose own lists hold at most
   `rows` elements: every entry belongs to a collected field and answers its merged selection
   set. A list field of the root type yields a connection whose lists hold a page; the rows
   of a page hold no longer lists of their own.
   */
  ghost predicate MayAnswer(doc: Document, variables: Variables, r: Response,
                            selections: seq<Selection>, typeName: string, rows: nat)
    decreases r, 1
  {
    && r.Object?
    && DistinctKeys(r.entries)
    && var fields := Collect(doc, selections, typeName, {}).fields;
    && Mergeable(fields)
    && forall i :: 0 <= i < |r.entries| ==>
         exists j :: 0 <= j < |fields| && ResponseKey(fields[j]) == r.entries[i].key
           && MayComplete(doc, variables, r.entries[i].value, fields[j], Merged(fields, r.entries[i].key), typeName, rows)
  }

  /** CompleteValue for one collected field. */
  ghost predicate MayComplete(doc: Document, variables: Variables, value: Response, f: Selection,
                              merged: seq<Selection>, typeName: string, rows: nat)
    requires f.Field?
    decreases value, 2
  {
    match value
    case Leaf => true
    case Object(_) =>
      && doc.ChildType(typeName, f.name).Some? && !doc.IsListOf(typeName, f.name)
      && MayAnswer(doc, variables, value, merged, doc.ChildType(typeName, f.name).value,
                   if IsListField(Key(typeName, f.name)) then MaxRows(f.arguments, variables) else rows)
    case Rows(items) =>
      && doc.ChildType(typeName, f.name).Some? && doc.IsListOf(typeName, f.name)
      && |items| <= rows
      && forall i :: 0 <= i < |items| ==>
           items[i].Leaf? || MayAnswer(doc, variables, items[i], merged, doc.ChildType(typeName, f.name).value, 1)
  }

  // ----- costs of collected fields

  ghost function Cost(doc: Document, selections: seq<Selection>, typeName: string): nat {
    MeasureSet(doc, selections, typeName, 1, {}).cost
  }

  ghost function FieldCost(doc: Document, f: Selection, typeName: string): nat {
    MeasureSelection(doc, f, typeName, 1, {}).cost
  }

  ghost function FieldsCost(doc: Document, fields: seq<Selection>, typeName: string): nat {
    if fields == [] then 0 else FieldCost(doc, fields[0], typeName) + FieldsCost(doc, fields[1..], typeName)
  }

  /** What selecting `selections` below a field of `typeName` costs per element. */
  ghost function ChildCost(doc: Document, name: string, selections: seq<Selection>, typeName: string): nat {
    match doc.ChildType(typeName, name)
    case Some(child) => Cost(doc, selections, child)
    case None => 0
  }

  ghost function Times(m: nat, n: nat): nat {
    MulNonNegative(m + 1, n);
    m * n
  }

  lemma {:induction false} CostIgnoresDepth(doc: Document, selections: seq<Selection>, typeName: string,
                                            d: nat, e: nat, seen: set<string>)
    ensures MeasureSet(doc, selections, typeName, d, seen).cost == MeasureSet(doc, selections, typeName, e, seen).cost
    decreases doc.fragments.Keys - seen, selections, 0
  {
    if selections == [] {
    } else {
      CostIgnoresDepthOne(doc, selections[0], typeName, d, e, seen);
      CostIgnoresDepth(doc, selections[1..], typeName, d, e, seen);
    }
  }

  lemma {:induction false} CostIgnoresDepthOne(doc: Document, sel: Selection, typeName: string,
                                               d: nat, e: nat, seen: set<string>)
    ensures MeasureSelection(doc, sel, typeName, d, seen).cost == MeasureSelection(doc, sel, typeName, e, seen).cost
    decreases doc.fragments.Keys - seen, sel, 1
  {
    match sel
    case Field(name, _, _, sub) =>
      var child := doc.ChildType(typeName, name);
      if child.Some? {
        CostIgnoresDepth(doc, sub, child.value, d + 1, e + 1, seen);
      }
    case InlineFragment(_, body) => CostIgnoresDepth(doc, body, typeName, d, e, seen);
    case FragmentSpread(name) =>
      if name !in seen && doc.Enterable(name) {
        CostIgnoresDepth(doc, doc.fragments[name].body, doc.fragments[name].condition, d, e, seen + {name});
      }
  }

  lemma {:induction false} FieldCostIs(doc: Document, f: Selection, typeName: string)
    requires f.Field? && !IsIntrospection(f.name)
    ensures var key := Key(typeName, f.name);
            FieldCost(doc, f, typeName)
            == FieldWeight(key) + Times(Multiplier(key, f.arguments), ChildCost(doc, f.name, f.selectionSet, typeName))
  {
    var child := doc.ChildType(typeName, f.name);
    if child.Some? {
      CostIgnoresDepth(doc, f.selectionSet, child.value, 1, 2, {});
    }
  }

  lemma {:induction false} CostAdds(doc: Document, a: seq<Selection>, b: seq<Selection>, typeName: string)
    ensures Cost(doc, a + b, typeName) == Cost(doc, a, typeName) + Cost(doc, b, typeName)
  {
    if a == [] {
      assert a + b == b;
    } else {
      assert (a + b)[1..] == a[1..] + b;
      CostAdds(doc, a[1..], b, typeName);
    }
  }

  lemma {:induction false} FieldsCostAdds(doc: Document, a: seq<Selection>, b: seq<Selection>, typeName: string)
    ensures FieldsCost(doc, a + b, typeName) == FieldsCost(doc, a, typeName) + FieldsCost(doc, b, typeName)
  {
    if a == [] {
      assert a + b == b;
    } else {
      assert (a + b)[1..] == a[1..] + b;
      FieldsCostAdds(doc, a[1..], b, typeName);
    }
  }

  // ----- properties of a query that its execution keeps

  /** Every list limit in the tree is one the budget prices. */
  ghost predicate LimitsPriced(selections: seq<Selection>)
    decreases selections, 0
  {
    selections == [] || (LimitsPricedOne(selections[0]) && LimitsPriced(selections[1..]))
  }

  ghost predicate LimitsPricedOne(sel: Selection)
    decreases sel, 1
  {
    match sel
    case Field(_, _, arguments, sub) => LimitPriced(arguments) && LimitsPriced(sub)
    case InlineFragment(_, body) => LimitsPriced(body)
    case FragmentSpread(_) => true
  }

  /** A validated document: no fragment cycles, every list limit priced. */
  ghost predicate Valid(doc: Document, rank: string -> nat) {
    Acyclic(doc, rank) && forall name :: name in doc.fragments ==> LimitsPriced(doc.fragments[name].body)
  }

  ghost predicate Fine(rank: string -> nat, bound: nat, selections: seq<Selection>) {
    SpreadsBelow(rank, selections, bound) && LimitsPriced(selections)
  }

  ghost predicate FineField(rank: string -> nat, bound: nat, f: Selection) {
    f.Field? && LimitPriced(f.arguments) && Fine(rank, bound, f.selectionSet)
  }

  lemma {:induction false} FineAdds(rank: string -> nat, bound: nat, a: seq<Selection>, b: seq<Selection>)
    requires Fine(rank, bound, a) && Fine(rank, bound, b)
    ensures Fine(rank, bound, a + b)
  {
    if a == [] {
      assert a + b == b;
    } else {
      assert (a + b)[1..] == a[1..] + b;
      FineAdds(rank, bound, a[1..], b);
    }
  }

  lemma {:induction false} SpreadsBelowRaises(rank: string -> nat, selections: seq<Selection>, bound: nat, higher: nat)
    requires bound <= higher && SpreadsBelow(rank, selections, bound)
    ensures SpreadsBelow(rank, selections, higher)
    decreases selections
  {
    if selections == [] {
    } else {
      SpreadsBelowRaises(rank, selections[1..], bound, higher);
      match selections[0]
      case Field(_, _, _, sub) => SpreadsBelowRaises(rank, sub, bound, higher);
      case InlineFragment(_, body) => SpreadsBelowRaises(rank, body, bound, higher);
      case FragmentSpread(_) =>
    }
  }

  lemma {:induction false} MergedIsFine(rank: string -> nat, bound: nat, fields: seq<Selection>, key: string)
    requires AllFields(fields) && forall i :: 0 <= i < |fields| ==> FineField(rank, bound, fields[i])
    ensures Fine(rank, bound, Merged(fields, key))
  {
    if fields == [] {
    } else {
      MergedIsFine(rank, bound, fields[1..], key);
      assert FineField(rank, bound, fields[0]);
      FineAdds(rank, bound, if ResponseKey(fields[0]) == key then fields[0].selectionSet else [], Merged(fields[1..], key));
    }
  }

  /** Collecting never costs more than the walk, and keeps what validation established. */
  lemma {:induction false} CollectCost(doc: Document, rank: string -> nat, bound: nat,
                                       selections: seq<Selection>, typeName: string, visited: set<string>)
    requires Valid(doc, rank) && Fine(rank, bound, selections) && doc.IsObject(typeName)
    ensures var fields := Collect(doc, selections, typeName, visited).fields;
            && FieldsCost(doc, fields, typeName) <= Cost(doc, selections, typeName)
            && forall i :: 0 <= i < |fields| ==> FineField(rank, bound, fields[i])
    decreases bound, selections, 0
  {
    if selections == [] {
    } else {
      var first := CollectOne(doc, selections[0], typeName, visited);
      CollectCostOne(doc, rank, bound, selections[0], typeName, visited);
      CollectCost(doc, rank, bound, selections[1..], typeName, first.visited);
      FieldsCostAdds(doc, first.fields, Collect(doc, selections[1..], typeName, first.visited).fields, typeName);
    }
  }

  lemma {:induction false} CollectCostOne(doc: Document, rank: string -> nat, bound: nat,
                                          sel: Selection, typeName: string, visited: set<string>)
    requires Valid(doc, rank) && SpreadBelow(rank, sel, bound) && LimitsPricedOne(sel) && doc.IsObject(typeName)
    ensures var fields := CollectOne(doc, sel, typeName, visited).fields;
            && FieldsCost(doc, fields, typeName) <= FieldCost(doc, sel, typeName)
            && forall i :: 0 <= i < |fields| ==> FineField(rank, bound, fields[i])
    decreases bound, sel, 1
  {
    match sel
    case Field(_, _, _, _) =>
      assert FieldsCost(doc, [sel], typeName) == FieldCost(doc, sel, typeName) + FieldsCost(doc, [], typeName);
    case InlineFragment(condition, body) =>
      if condition.None? || Applies(condition.value, typeName) {
        CollectCost(doc, rank, bound, body, typeName, visited);
      }
    case FragmentSpread(name) =>
      if name !in visited && name in doc.fragments && Applies(doc.fragments[name].condition, typeName) {
        var body := doc.fragments[name].body;
        CollectCost(doc, rank, rank(name), body, typeName, visited + {name});
        SeenIrrelevant(doc, rank, rank(name), body, typeName, 1, {} + {name});
        FineRaises(rank, Collect(doc, body, typeName, visited + {name}).fields, rank(name), bound);
      }
  }

  lemma {:induction false} FineRaises(rank: string -> nat, fields: seq<Selection>, bound: nat, higher: nat)
    requires bound <= higher && forall i :: 0 <= i < |fields| ==> FineField(rank, bound, fields[i])
    ensures forall i :: 0 <= i < |fields| ==> FineField(rank, higher, fields[i])
  {
    forall i | 0 <= i < |fields|
      ensures FineField(rank, higher, fields[i])
    {
      assert FineField(rank, bound, fields[i]);
      SpreadsBelowRaises(rank, fields[i].selectionSet, bound, higher);
    }
  }

  // ----- merging

  ghost predicate InGroup(fields: seq<Selection>, key: string, f: Selection)
    requires AllFields(fields)
  {
    && f.Field?
    && forall i :: 0 <= i < |fields| && ResponseKey(fields[i]) == key
         ==> fields[i].name == f.name && LimitArgument(fields[i].arguments) == LimitArgument(f.arguments)
  }

  predicate Has(fields: seq<Selection>, key: string)
    requires AllFields(fields)
  {
    exists i :: 0 <= i < |fields| && ResponseKey(fields[i]) == key
  }

  /** A field and its merged selection set cost no more than the fields it was merged from. */
  lemma {:induction false} MergingIsCheaper(doc: Document, fields: seq<Selection>, key: string, f: Selection,
                                            typeName: string)
    requires AllFields(fields) && InGroup(fields, key, f)
    ensures (if Has(fields, key) then FieldWeight(Key(typeName, f.name)) else 0)
            + MergedPrice(doc, f, Merged(fields, key), typeName)
            + FieldsCost(doc, Others(fields, key), typeName)
            <= FieldsCost(doc, fields, typeName)
  {
    if fields != [] {
      MergingIsCheaper(doc, fields[1..], key, f, typeName);
      HasSplits(fields, key);
      MergedSplits(doc, fields, key, f, typeName);
    } else {
      EmptyMerge(doc, f, typeName);
    }
  }

  /** What the merged selection set of a response key adds to the price of its field. */
  ghost function MergedPrice(doc: Document, f: Selection, merged: seq<Selection>, typeName: string): nat
    requires f.Field?
  {
    Times(Multiplier(Key(typeName, f.name), f.arguments), ChildCost(doc, f.name, merged, typeName))
  }

  lemma {:induction false} EmptyMerge(doc: Document, f: Selection, typeName: string)
    requires f.Field?
    ensures MergedPrice(doc, f, [], typeName) == 0
  {
    NoSelectionCost(doc, f.name, typeName);
  }

  lemma {:induction false} HasSplits(fields: seq<Selection>, key: string)
    requires AllFields(fields) && fields != []
    ensures Has(fields, key) <==> ResponseKey(fields[0]) == key || Has(fields[1..], key)
  {
    if Has(fields[1..], key) {
      var i :| 0 <= i < |fields[1..]| && ResponseKey(fields[1..][i]) == key;
      assert ResponseKey(fields[i + 1]) == key;
    }
  }

  /** The first field either joins the group of `key` or stays among the others. */
  lemma {:induction false} MergedSplits(doc: Document, fields: seq<Selection>, key: string, f: Selection,
                                        typeName: string)
    requires AllFields(fields) && fields != [] && InGroup(fields, key, f)
    ensures if ResponseKey(fields[0]) == key
            then FieldCost(doc, fields[0], typeName) + MergedPrice(doc, f, Merged(fields[1..], key), typeName)
                 == FieldWeight(Key(typeName, f.name)) + MergedPrice(doc, f, Merged(fields, key), typeName)
            else Merged(fields, key) == Merged(fields[1..], key)
    ensures FieldsCost(doc, Others(fields, key), typeName)
         == (if ResponseKey(fields[0]) == key then 0 else FieldCost(doc, fields[0], typeName))
            + FieldsCost(doc, Others(fields[1..], key), typeName)
  {
    var sub, rest := fields[0].selectionSet, Merged(fields[1..], key);
    if ResponseKey(fields[0]) == key {
      hide Times, ChildCost, FieldWeight, Multiplier;
      FieldCostIs(doc, fields[0], typeName);
      MergedChildCost(doc, f.name, sub, rest, typeName);
      TimesAdds(Multiplier(Key(typeName, f.name), f.arguments),
                ChildCost(doc, f.name, sub, typeName), ChildCost(doc, f.name, rest, typeName));
    } else {
      assert Merged(fields, key) == [] + rest;
      assert Others(fields, key)[1..] == Others(fields[1..], key);
    }
  }

  lemma {:induction false} MergedChildCost(doc: Document, name: string, a: seq<Selection>, b: seq<Selection>,
                                           typeName: string)
    ensures ChildCost(doc, name, a + b, typeName) == ChildCost(doc, name, a, typeName) + ChildCost(doc, name, b, typeName)
  {
    var child := doc.ChildType(typeName, name);
    if child.Some? {
      CostAdds(doc, a, b, child.value);
    }
  }

  lemma {:induction false} TimesAdds(m: nat, x: nat, y: nat)
    ensures Times(m, x + y) == Times(m, x) + Times(m, y)
  {
  }

  lemma {:induction false} OthersKeep(fields: seq<Selection>, key: string, other: string)
    requires AllFields(fields) && other != key
    ensures Merged(Others(fields, key), other) == Merged(fields, other)
    ensures forall f :: f in Others(fields, key) <==> f in fields && f.Field? && ResponseKey(f) != key
  {
    if fields == [] {
    } else {
      OthersKeep(fields[1..], key, other);
    }
  }

  // ----- the bound

  /** An entry's value completes one of the collected fields with its merged selection set. */
  ghost predicate EntryAnswers(doc: Document, variables: Variables, e: Entry, fields: seq<Selection>, typeName: string, rows: nat)
    requires AllFields(fields)
  {
    exists f :: f in fields && ResponseKey(f) == e.key
      && MayComplete(doc, variables, e.value, f, Merged(fields, e.key), typeName, rows)
  }

  /** What holds of the collected fields while the entries of an object are accounted for. */
  ghost predicate Context(doc: Document, rank: string -> nat, bound: nat, fields: seq<Selection>)
    requires AllFields(fields)
  {
    && Valid(doc, rank)
    && Mergeable(fields)
    && forall i :: 0 <= i < |fields| ==> FineField(rank, bound, fields[i])
  }

  lemma {:induction false} ResponseBound(doc: Document, rank: string -> nat, bound: nat, variables: Variables,
                                         r: Response, selections: seq<Selection>, typeName: string, rows: nat, m: nat)
    requires Valid(doc, rank) && Fine(rank, bound, selections) && doc.IsObject(typeName)
    requires MayAnswer(doc, variables, r, selections, typeName, rows) && rows <= m && m >= 1
    ensures Values(r) <= Times(m, Cost(doc, selections, typeName))
    decreases r, 0
  {
    var fields := Collect(doc, selections, typeName, {}).fields;
    EntriesAnswer(doc, variables, r, selections, typeName, rows);
    CollectCost(doc, rank, bound, selections, typeName, {});
    hide Times, Collect, MayAnswer, EntryAnswers, FineField, Fine, Valid, Mergeable, Cost, FieldsCost, DistinctKeys;
    EntriesBound(doc, rank, bound, variables, r.entries, fields, typeName, rows, m);
    TimesMonotone(m, FieldsCost(doc, fields, typeName), Cost(doc, selections, typeName));
  }

  lemma {:induction false} EntriesAnswer(doc: Document, variables: Variables, r: Response, selections: seq<Selection>,
                                         typeName: string, rows: nat)
    requires MayAnswer(doc, variables, r, selections, typeName, rows)
    ensures r.Object? && DistinctKeys(r.entries)
    ensures var fields := Collect(doc, selections, typeName, {}).fields;
            && Mergeable(fields)
            && forall i :: 0 <= i < |r.entries| ==> EntryAnswers(doc, variables, r.entries[i], fields, typeName, rows)
  {
    var fields := Collect(doc, selections, typeName, {}).fields;
    forall i | 0 <= i < |r.entries|
      ensures EntryAnswers(doc, variables, r.entries[i], fields, typeName, rows)
    {
      var e := r.entries[i];
      var j :| 0 <= j < |fields| && ResponseKey(fields[j]) == e.key
           && MayComplete(doc, variables, e.value, fields[j], Merged(fields, e.key), typeName, rows);
      assert fields[j] in fields;
    }
  }

  lemma {:induction false} TimesMonotone(m: nat, x: nat, y: nat)
    requires x <= y
    ensures Times(m, x) <= Times(m, y)
  {
  }

  lemma {:induction false} EntriesBound(doc: Document, rank: string -> nat, bound: nat, variables: Variables,
                                        entries: seq<Entry>, fields: seq<Selection>, typeName: string, rows: nat, m: nat)
    requires AllFields(fields) && Context(doc, rank, bound, fields)
    requires DistinctKeys(entries) && rows <= m && m >= 1
    requires forall i :: 0 <= i < |entries| ==> EntryAnswers(doc, variables, entries[i], fields, typeName, rows)
    ensures EntryValues(entries) <= Times(m, FieldsCost(doc, fields, typeName))
    decreases entries, 1
  {
    if entries == [] {
    } else {
      hide Context, Times, MayComplete, FieldsCost;
      var e, rest := entries[0], entries[1..];
      var group := FirstEntryBound(doc, rank, bound, variables, e, fields, typeName, rows, m);
      OthersAnswer(doc, rank, bound, variables, e.key, rest, fields, typeName, rows);
      EntriesBound(doc, rank, bound, variables, rest, Others(fields, e.key), typeName, rows, m);
      Combine(m, 1 + Values(e.value), EntryValues(rest), group,
              FieldsCost(doc, Others(fields, e.key), typeName), FieldsCost(doc, fields, typeName));
    }
  }

  lemma {:induction false} Combine(m: nat, one: nat, others: nat, group: nat, othersCost: nat, fieldsCost: nat)
    requires one <= Times(m, group) && others <= Times(m, othersCost) && group + othersCost <= fieldsCost
    ensures one + others <= Times(m, fieldsCost)
  {
    TimesAdds(m, group, othersCost);
    TimesMonotone(m, group + othersCost, fieldsCost);
  }

  /** One entry and the part of the price that belongs to its response key. */
  lemma {:induction false} FirstEntryBound(doc: Document, rank: string -> nat, bound: nat, variables: Variables,
                                           e: Entry, fields: seq<Selection>, typeName: string, rows: nat, m: nat)
    returns (group: nat)
    requires AllFields(fields) && Context(doc, rank, bound, fields) && rows <= m && m >= 1
    requires EntryAnswers(doc, variables, e, fields, typeName, rows)
    ensures 1 + Values(e.value) <= Times(m, group)
    ensures group + FieldsCost(doc, Others(fields, e.key), typeName) <= FieldsCost(doc, fields, typeName)
    decreases e, 3
  {
    hide Context, AllFields, Times, FieldWeight, ChildCost, EntryAnswers, InGroup, MergedPrice, Has;
    var f := FieldFor(doc, rank, bound, variables, e, fields, typeName, rows);
    EntryBound(doc, rank, bound, variables, e.value, f, fields, typeName, rows, m);
    MergingIsCheaper(doc, fields, e.key, f, typeName);
    group := FieldWeight(Key(typeName, f.name)) + MergedPrice(doc, f, Merged(fields, e.key), typeName);
  }

  lemma {:induction false} FieldFor(doc: Document, rank: string -> nat, bound: nat, variables: Variables,
                                    e: Entry, fields: seq<Selection>, typeName: string, rows: nat)
    returns (f: Selection)
    requires AllFields(fields) && Context(doc, rank, bound, fields)
    requires EntryAnswers(doc, variables, e, fields, typeName, rows)
    ensures f in fields && f.Field? && ResponseKey(f) == e.key && InGroup(fields, e.key, f) && Has(fields, e.key)
    ensures MayComplete(doc, variables, e.value, f, Merged(fields, e.key), typeName, rows)
  {
    f :| f in fields && ResponseKey(f) == e.key
      && MayComplete(doc, variables, e.value, f, Merged(fields, e.key), typeName, rows);
    hide MayComplete;
    GroupOf(fields, f);
  }

  lemma {:induction false} GroupOf(fields: seq<Selection>, f: Selection)
    requires AllFields(fields) && Mergeable(fields) && f in fields
    ensures InGroup(fields, ResponseKey(f), f)
  {
  }

  lemma {:induction false} OthersAreFields(fields: seq<Selection>, key: string)
    requires AllFields(fields)
    ensures forall i :: 0 <= i < |Others(fields, key)| ==> Others(fields, key)[i] in fields
  {
    OthersKeep(fields, key, key + "x");
    hide Others, Merged;
    var others := Others(fields, key);
    assert forall i :: 0 <= i < |others| ==> others[i] in others;
  }

  lemma {:induction false} OthersInContext(doc: Document, rank: string -> nat, bound: nat, key: string,
                                           fields: seq<Selection>)
    requires AllFields(fields) && Context(doc, rank, bound, fields)
    ensures Context(doc, rank, bound, Others(fields, key))
  {
    hide Others, Merged, FineField, Valid, LimitArgument;
    var others := Others(fields, key);
    OthersAreFields(fields, key);
    forall i, j | 0 <= i < |others| && 0 <= j < |others| && ResponseKey(others[i]) == ResponseKey(others[j])
      ensures others[i].name == others[j].name
              && LimitArgument(others[i].arguments) == LimitArgument(others[j].arguments)
    {
      assert others[i] in fields && others[j] in fields;
    }
  }

  lemma {:induction false} OthersAnswer(doc: Document, rank: string -> nat, bound: nat, variables: Variables, key: string,
                                        entries: seq<Entry>, fields: seq<Selection>, typeName: string, rows: nat)
    requires AllFields(fields) && Context(doc, rank, bound, fields)
    requires forall i :: 0 <= i < |entries| ==> EntryAnswers(doc, variables, entries[i], fields, typeName, rows)
    requires forall i :: 0 <= i < |entries| ==> entries[i].key != key
    ensures Context(doc, rank, bound, Others(fields, key))
    ensures forall i :: 0 <= i < |entries| ==>
              EntryAnswers(doc, variables, entries[i], Others(fields, key), typeName, rows)
  {
    OthersInContext(doc, rank, bound, key, fields);
    hide Context, MayComplete;
    forall i | 0 <= i < |entries|
      ensures EntryAnswers(doc, variables, entries[i], Others(fields, key), typeName, rows)
    {
      OthersKeep(fields, key, entries[i].key);
    }
  }

  /** One entry: the field value itself and everything below it. */
  lemma {:induction false} EntryBound(doc: Document, rank: string -> nat, bound: nat, variables: Variables,
                                      value: Response, f: Selection, fields: seq<Selection>, typeName: string, rows: nat, m: nat)
    requires AllFields(fields) && Context(doc, rank, bound, fields) && f in fields && f.Field? && rows <= m && m >= 1
    requires MayComplete(doc, variables, value, f, Merged(fields, ResponseKey(f)), typeName, rows)
    ensures 1 + Values(value)
         <= Times(m, FieldWeight(Key(typeName, f.name)) + MergedPrice(doc, f, Merged(fields, ResponseKey(f)), typeName))
    decreases value, 3
  {
    hide Context, AllFields, Times, FieldWeight, Multiplier, ChildCost, MayComplete, Valid, FineField, Fine;
    var merged, key := Merged(fields, ResponseKey(f)), Key(typeName, f.name);
    FieldInContext(doc, rank, bound, fields, f);
    ValueBound(doc, rank, bound, variables, value, f, merged, typeName, rows, m);
    Budgeted(m, Multiplier(key, f.arguments), key, ChildCost(doc, f.name, merged, typeName), Values(value));
  }

  lemma {:induction false} FieldInContext(doc: Document, rank: string -> nat, bound: nat, fields: seq<Selection>,
                                          f: Selection)
    requires AllFields(fields) && Context(doc, rank, bound, fields) && f in fields
    ensures Valid(doc, rank) && f.Field? && FineField(rank, bound, f) && Fine(rank, bound, Merged(fields, ResponseKey(f)))
  {
    MergedIsFine(rank, bound, fields, ResponseKey(f));
  }

  /** Below the field: at most its child cost, taken once per row or once per enclosing row. */
  lemma {:induction false} ValueBound(doc: Document, rank: string -> nat, bound: nat, variables: Variables,
                                      value: Response, f: Selection, merged: seq<Selection>, typeName: string, rows: nat, m: nat)
    requires Valid(doc, rank) && FineField(rank, bound, f) && Fine(rank, bound, merged) && rows <= m && m >= 1
    requires MayComplete(doc, variables, value, f, merged, typeName, rows)
    ensures var c := ChildCost(doc, f.name, merged, typeName);
            Values(value) <= Times(m, c) || Values(value) <= Times(Multiplier(Key(typeName, f.name), f.arguments), c)
    decreases value, 2
  {
    hide Times, Valid, Fine, MayAnswer, Cost;
    match value
    case Leaf =>
    case Object(_) =>
      var child := doc.ChildType(typeName, f.name).value;
      if IsListField(Key(typeName, f.name)) {
        MultiplierCoversRowsIff(Key(typeName, f.name), f.arguments);
        ResponseBound(doc, rank, bound, variables, value, merged, child, MaxRows(f.arguments, variables),
                      Multiplier(Key(typeName, f.name), f.arguments));
      } else {
        ResponseBound(doc, rank, bound, variables, value, merged, child, rows, m);
      }
    case Rows(items) =>
      ItemsBound(doc, rank, bound, variables, items, merged, doc.ChildType(typeName, f.name).value);
      RowsWithin(|items|, m, ChildCost(doc, f.name, merged, typeName));
  }

  lemma {:induction false} Budgeted(m: nat, n: nat, key: string, c: nat, below: nat)
    requires m >= 1 && n >= 1 && (below <= Times(m, c) || below <= Times(n, c))
    ensures 1 + below <= Times(m, FieldWeight(key) + Times(n, c))
  {
    var w: nat, x := FieldWeight(key), Times(n, c);
    assert w >= 1;
    hide FieldWeight, Times;
    TimesAtLeast(n, c);
    TimesAtLeast(m, w);
    TimesAtLeast(m, x);
    TimesMonotone(m, c, x);
    TimesAdds(m, w, x);
  }

  lemma {:induction false} TimesAtLeast(m: nat, x: nat)
    requires m >= 1
    ensures Times(m, x) >= x
  {
  }

  lemma {:induction false} RowsWithin(k: nat, m: nat, c: nat)
    requires k <= m
    ensures Times(k, c) <= Times(m, c)
  {
  }

  lemma {:induction false} ItemsBound(doc: Document, rank: string -> nat, bound: nat, variables: Variables,
                                      items: seq<Response>, selections: seq<Selection>, typeName: string)
    requires Valid(doc, rank) && Fine(rank, bound, selections) && doc.IsObject(typeName)
    requires forall i :: 0 <= i < |items| ==>
               items[i].Leaf? || MayAnswer(doc, variables, items[i], selections, typeName, 1)
    ensures ItemValues(items) <= Times(|items|, Cost(doc, selections, typeName))
    decreases items, 1
  {
    hide Times, Cost, Valid, Fine, MayAnswer;
    if items == [] {
    } else {
      var c := Cost(doc, selections, typeName);
      TimesNext(|items[1..]|, c);
      if !items[0].Leaf? {
        ResponseBound(doc, rank, bound, variables, items[0], selections, typeName, 1, 1);
      }
      ItemsBound(doc, rank, bound, variables, items[1..], selections, typeName);
    }
  }

  lemma {:induction false} TimesNext(k: nat, c: nat)
    ensures Times(k + 1, c) == Times(k, c) + c && Times(1, c) == c
  {
  }

  /** Any response to a validated query holds at most as many field values as the query was priced at ... */
  lemma {:induction false} CostBoundsResponse(doc: Document, rank: string -> nat, bound: nat, variables: Variables,
                                              r: Response, selections: seq<Selection>, rootType: string)
    requires Valid(doc, rank) && Fine(rank, bound, selections) && doc.IsObject(rootType)
    requires MayAnswer(doc, variables, r, selections, rootType, 1)
    ensures Values(r) <= MeasureSet(doc, selections, rootType, 1, {}).cost
  {
    ResponseBound(doc, rank, bound, variables, r, selections, rootType, 1, 1);
  }

  /** ... so a query the rule accepts never returns more than the configured maximum. */
  lemma {:induction false} AcceptedQueriesStayWithinBudget(limits: Limits, doc: Document, rank: string -> nat, bound: nat,
                                                           variables: Variables, r: Response, selections: seq<Selection>, rootType: string)
    requires Valid(doc, rank) && Fine(rank, bound, selections) && doc.IsObject(rootType)
    requires Accepts(limits, OperationDefinition(true, selections), MeasureSet(doc, selections, rootType, 1, {}))
    requires MayAnswer(doc, variables, r, selections, rootType, 1)
    ensures Values(r) <= limits.maxCost
  {
    CostBoundsResponse(doc, rank, bound, variables, r, selections, rootType);
  }

  // ----- the limits the budget misprices

  /** A list field of the schema: its connection type, its row type, and two scalar fields of a row. */
  datatype ListField = ListField(name: string, connection: string, row: string, a: string, b: string)

  const LOANS := ListField("loans", "LoanConnection", "Loan", "id", "status")
  const SCORES := ListField("scores", "ScoreConnection", "Score", "address", "score")
  const REMITTANCES := ListField("remittances", "RemittanceConnection", "Remittance", "id", "status")

  /** The part of the schema (backend/src/graphql/schema.ts) that lists rows. */
  const LIST_TYPES: map<string, TypeDefinition> :=
    map["Query" := ObjectType(map["loans" := FieldType("LoanConnection", false),
                                  "scores" := FieldType("ScoreConnection", false),
                                  "remittances" := FieldType("RemittanceConnection", false)]),
        "LoanConnection" := ObjectType(map["edges" := FieldType("Loan", true), "total" := FieldType("Int", false)]),
        "ScoreConnection" := ObjectType(map["edges" := FieldType("Score", true), "total" := FieldType("Int", false)]),
        "RemittanceConnection" :=
          ObjectType(map["edges" := FieldType("Remittance", true), "total" := FieldType("Int", false)]),
        "Loan" := ObjectType(map["id" := FieldType("String", false), "status" := FieldType("String", false)]),
        "Score" := ObjectType(map["address" := FieldType("String", false), "score" := FieldType("Int", false)]),
        "Remittance" := ObjectType(map["id" := FieldType("String", false), "status" := FieldType("String", false)])]

  const LIST_DOCUMENT := Document(map[], LIST_TYPES)

  predicate IsList(l: ListField) {
    l == LOANS || l == SCORES || l == REMITTANCES
  }

  /** What a price and a response depend on. */
  ghost predicate Shape(doc: Document, l: ListField) {
    && doc.IsObject("Query")
    && doc.ChildType("Query", l.name) == Some(l.connection)
    && doc.ChildType(l.connection, "edges") == Some(l.row)
    && !doc.IsListOf("Query", l.name) && doc.IsListOf(l.connection, "edges")
    && !IsIntrospection(l.name) && !IsIntrospection("edges") && !IsIntrospection(l.a) && !IsIntrospection(l.b)
    && l.a != l.b
    && IsListField(Key("Query", l.name)) && FieldWeight(Key("Query", l.name)) == 10
    && PlainField(l.connection, "edges") && PlainField(l.row, l.a) && PlainField(l.row, l.b)
  }

  predicate PlainField(typeName: string, field: string) {
    FieldWeight(Key(typeName, field)) == 1 && Multiplier(Key(typeName, field), []) == 1
  }

  lemma {:induction false} ListShape(l: ListField)
    requires IsList(l)
    ensures Shape(LIST_DOCUMENT, l)
  {
    ListTypes(l);
    ListNames(l);
    ListKey(l);
    hide Key, FieldWeight, Multiplier, IsListField, IsIntrospection, PlainField;
  }

  lemma {:induction false} ListTypes(l: ListField)
    requires IsList(l)
    ensures LIST_DOCUMENT.IsObject("Query")
    ensures LIST_DOCUMENT.ChildType("Query", l.name) == Some(l.connection)
    ensures LIST_DOCUMENT.ChildType(l.connection, "edges") == Some(l.row)
    ensures !LIST_DOCUMENT.IsListOf("Query", l.name) && LIST_DOCUMENT.IsListOf(l.connection, "edges")
  {
  }

  lemma {:induction false} ListNames(l: ListField)
    requires IsList(l)
    ensures !IsIntrospection(l.name) && !IsIntrospection("edges") && !IsIntrospection(l.a) && !IsIntrospection(l.b)
    ensures l.a != l.b
    ensures PlainField(l.connection, "edges") && PlainField(l.row, l.a) && PlainField(l.row, l.b)
  {
    assert l.a[0] != l.b[0];
    assert l.name[0] != '_' && "edges"[0] != '_' && l.a[0] != '_' && l.b[0] != '_';
    assert l.connection[0] != 'Q' && l.row[0] != 'Q';
    hide Key, FieldWeight, Multiplier, IsListField;
    KeyStarts(l.connection, "edges");
    KeyStarts(l.row, l.a);
    KeyStarts(l.row, l.b);
  }

  lemma {:induction false} ListKey(l: ListField)
    requires IsList(l)
    ensures IsListField(Key("Query", l.name)) && FieldWeight(Key("Query", l.name)) == 10
  {
    assert Key("Query", "loans") == "Query.loans";
    assert Key("Query", "scores") == "Query.scores";
    assert Key("Query", "remittances") == "Query.remittances";
  }

  function Plain(name: string): Selection {
    Field(name, None, [], [])
  }

  function RowFields(l: ListField): seq<Selection> {
    [Plain(l.a), Plain(l.b)]
  }

  /** { edges { a b } } */
  function Edges(l: ListField): seq<Selection> {
    [Field("edges", None, [], RowFields(l))]
  }

  function ListSelection(l: ListField, alias: Option<string>, arguments: seq<Argument>, sub: seq<Selection>): seq<Selection> {
    [Field(l.name, alias, arguments, sub)]
  }

  function Row(l: ListField): Response {
    Object([Entry(l.a, Leaf), Entry(l.b, Leaf)])
  }

  function RowList(l: ListField, n: nat): Response {
    Rows(seq(n, i => Row(l)))
  }

  function Page(l: ListField, n: nat): Response {
    Object([Entry("edges", RowList(l, n))])
  }

  /** The response that holds a page of `n` rows. */
  function PageResponse(l: ListField, n: nat): Response {
    Object([Entry(l.name, Page(l, n))])
  }

  lemma {:induction false} SingleEntry(key: string, value: Response)
    ensures Values(Object([Entry(key, value)])) == 1 + Values(value)
  {
    assert [Entry(key, value)][1..] == [] && EntryValues([]) == 0;
    assert EntryValues([Entry(key, value)]) == 1 + Values(value);
  }

  lemma {:induction false} RowValues(l: ListField)
    ensures Values(Row(l)) == 2
  {
    var entries := [Entry(l.a, Leaf), Entry(l.b, Leaf)];
    SingleEntry(l.b, Leaf);
    assert entries[1..] == [Entry(l.b, Leaf)];
    assert EntryValues(entries) == 1 + Values(Leaf) + EntryValues(entries[1..]);
  }

  lemma {:induction false} RowListValues(l: ListField, n: nat)
    ensures ItemValues(seq(n, i => Row(l))) == 2 * n
  {
    if n == 0 {
    } else {
      RowListValues(l, n - 1);
      RowValues(l);
      assert seq(n, i => Row(l))[1..] == seq(n - 1, i => Row(l));
    }
  }

  lemma {:induction false} PageValues(l: ListField, n: nat)
    ensures Values(PageResponse(l, n)) == 2 + 2 * n
  {
    RowListValues(l, n);
    SingleEntry("edges", RowList(l, n));
    SingleEntry(l.name, Page(l, n));
  }

  lemma {:induction false} SingleFieldPrice(doc: Document, f: Selection, typeName: string, w: nat, m: nat, inner: nat)
    requires f.Field? && !IsIntrospection(f.name)
    requires FieldWeight(Key(typeName, f.name)) == w && Multiplier(Key(typeName, f.name), f.arguments) == m
    requires ChildCost(doc, f.name, f.selectionSet, typeName) == inner
    ensures Cost(doc, [f], typeName) == w + Times(m, inner)
  {
    FieldCostIs(doc, f, typeName);
    hide Times, ChildCost, FieldWeight, Multiplier;
    assert [f][1..] == [] && MeasureSet(doc, [], typeName, 1, {}) == NOTHING;
  }

  lemma {:induction false} KeyStarts(typeName: string, field: string)
    requires typeName != "" && typeName[0] != 'Q'
    ensures FieldWeight(Key(typeName, field)) == 1 && Multiplier(Key(typeName, field), []) == 1
  {
    assert Key(typeName, field)[0] == typeName[0];
  }

  lemma {:induction false} NoSelectionCost(doc: Document, name: string, typeName: string)
    ensures ChildCost(doc, name, [], typeName) == 0
  {
  }

  lemma {:induction false} ScalarPrice(doc: Document, name: string, typeName: string)
    requires !IsIntrospection(name) && PlainField(typeName, name)
    ensures Cost(doc, [Plain(name)], typeName) == 1
  {
    hide FieldWeight, Multiplier, Key, IsIntrospection, Cost;
    NoSelectionCost(doc, name, typeName);
    SingleFieldPrice(doc, Plain(name), typeName, 1, 1, 0);
    assert Times(1, 0) == 0;
  }

  lemma {:induction false} EdgesPrice(doc: Document, l: ListField)
    requires Shape(doc, l)
    ensures Cost(doc, Edges(l), l.connection) == 3
  {
    hide Cost, FieldWeight, Multiplier, Key, IsIntrospection, IsListField;
    ScalarPrice(doc, l.a, l.row);
    ScalarPrice(doc, l.b, l.row);
    CostAdds(doc, [Plain(l.a)], [Plain(l.b)], l.row);
    assert [Plain(l.a)] + [Plain(l.b)] == RowFields(l);
    SingleFieldPrice(doc, Edges(l)[0], l.connection, 1, 1, 2);
    assert Times(1, 2) == 2 && Edges(l) == [Edges(l)[0]];
  }

  lemma {:induction false} ListPrice(doc: Document, l: ListField, arguments: seq<Argument>)
    requires Shape(doc, l)
    ensures Cost(doc, ListSelection(l, None, arguments, Edges(l)), "Query")
         == 10 + Times(Multiplier(Key("Query", l.name), arguments), 3)
  {
    EdgesPrice(doc, l);
    hide Cost, FieldWeight, Multiplier, Key, IsIntrospection, IsListField, Times;
    var m := Multiplier(Key("Query", l.name), arguments);
    SingleFieldPrice(doc, ListSelection(l, None, arguments, Edges(l))[0], "Query", 10, m, 3);
  }

  lemma {:induction false} SingleFieldCollected(doc: Document, f: Selection, typeName: string)
    requires f.Field? && !IsIntrospection(f.name)
    ensures Collect(doc, [f], typeName, {}).fields == [f]
  {
    assert [f][1..] == [];
    assert Collect(doc, [], typeName, {}).fields == [];
  }

  lemma {:induction false} SingleFieldAnswered(doc: Document, variables: Variables, value: Response, f: Selection,
                                               typeName: string, rows: nat)
    requires f.Field? && !IsIntrospection(f.name) && f.alias.None?
    requires MayComplete(doc, variables, value, f, f.selectionSet, typeName, rows)
    ensures MayAnswer(doc, variables, Object([Entry(f.name, value)]), [f], typeName, rows)
  {
    SingleFieldCollected(doc, f, typeName);
    var fields := Collect(doc, [f], typeName, {}).fields;
    assert Merged(fields, f.name) == f.selectionSet + Merged([], f.name) == f.selectionSet;
    hide MayComplete, Merged, Collect;
    var r := Object([Entry(f.name, value)]);
    forall i | 0 <= i < |r.entries|
      ensures exists j ::
                && 0 <= j < |fields| && ResponseKey(fields[j]) == r.entries[i].key
                && MayComplete(doc, variables, r.entries[i].value, fields[j], Merged(fields, r.entries[i].key), typeName, rows)
    {
      assert ResponseKey(fields[0]) == r.entries[i].key;
    }
  }

  lemma {:induction false} RowCollected(doc: Document, l: ListField)
    requires !IsIntrospection(l.a) && !IsIntrospection(l.b)
    ensures Collect(doc, RowFields(l), l.row, {}).fields == RowFields(l)
  {
    SingleFieldCollected(doc, Plain(l.b), l.row);
    assert RowFields(l)[1..] == [Plain(l.b)];
    assert CollectOne(doc, Plain(l.a), l.row, {}) == Collected([Plain(l.a)], {});
    hide IsIntrospection;
    assert [Plain(l.a)] + [Plain(l.b)] == RowFields(l);
  }

  lemma {:induction false} RowAnswered(doc: Document, variables: Variables, l: ListField)
    requires Shape(doc, l)
    ensures MayAnswer(doc, variables, Row(l), RowFields(l), l.row, 1)
  {
    RowCollected(doc, l);
    hide Key, FieldWeight, Multiplier, IsListField, IsIntrospection, Collect;
    var fields := RowFields(l);
    assert ResponseKey(fields[0]) == l.a && ResponseKey(fields[1]) == l.b;
  }

  lemma {:induction false} ConnectionAnswered(doc: Document, variables: Variables, l: ListField, n: nat, rows: nat)
    requires Shape(doc, l) && n <= rows
    ensures MayAnswer(doc, variables, Page(l, n), Edges(l), l.connection, rows)
  {
    RowAnswered(doc, variables, l);
    hide MayAnswer, Key, FieldWeight, Multiplier, IsListField, IsIntrospection;
    SingleFieldAnswered(doc, variables, RowList(l, n), Edges(l)[0], l.connection, rows);
  }

  /** A page as long as the resolver allows answers the list field. */
  lemma {:induction false} PageAnswered(doc: Document, variables: Variables, l: ListField, arguments: seq<Argument>, n: nat)
    requires Shape(doc, l) && n <= MaxRows(arguments, variables)
    ensures MayAnswer(doc, variables, PageResponse(l, n), ListSelection(l, None, arguments, Edges(l)), "Query", 1)
  {
    ConnectionAnswered(doc, variables, l, n, MaxRows(arguments, variables));
    hide MayAnswer, MaxRows, Key, FieldWeight, Multiplier, IsListField, IsIntrospection;
    SingleFieldAnswered(doc, variables, Page(l, n), ListSelection(l, None, arguments, Edges(l))[0], "Query", 1);
  }

  /** With `limit: 0` the resolver returns ten rows while the budget prices one: 22 field values for 13. */
  lemma {:induction false} ZeroLimitIsUnderpriced(l: ListField)
    requires IsList(l)
    ensures var query := ListSelection(l, None, [Argument("limit", IntLiteral(0))], Edges(l));
            && MayAnswer(LIST_DOCUMENT, map[], PageResponse(l, 10), query, "Query", 1)
            && MeasureSet(LIST_DOCUMENT, query, "Query", 1, {}).cost == 13
            && Values(PageResponse(l, 10)) == 22
  {
    ListShape(l);
    var arguments := [Argument("limit", IntLiteral(0))];
    Overrun(LIST_DOCUMENT, l, arguments, map[], 10, 1);
  }

  /** With a variable for a limit it returns a hundred while the budget prices fifty: 202 field values for 160. */
  lemma {:induction false} VariableLimitIsUnderpriced(l: ListField, name: string)
    requires IsList(l)
    ensures var query := ListSelection(l, None, [Argument("limit", Variable(name))], Edges(l));
            && MayAnswer(LIST_DOCUMENT, map[name := Some(100)], PageResponse(l, 100), query, "Query", 1)
            && MeasureSet(LIST_DOCUMENT, query, "Query", 1, {}).cost == 160
            && Values(PageResponse(l, 100)) == 202
  {
    ListShape(l);
    var arguments := [Argument("limit", Variable(name))];
    Overrun(LIST_DOCUMENT, l, arguments, map[name := Some(100)], 100, 50);
  }

  lemma {:induction false} Overrun(doc: Document, l: ListField, arguments: seq<Argument>, variables: Variables,
                                   n: nat, m: nat)
    requires Shape(doc, l) && n == MaxRows(arguments, variables) && m == Multiplier(Key("Query", l.name), arguments)
    ensures var query := ListSelection(l, None, arguments, Edges(l));
            && MayAnswer(doc, variables, PageResponse(l, n), query, "Query", 1)
            && MeasureSet(doc, query, "Query", 1, {}).cost == 10 + m * 3
            && Values(PageResponse(l, n)) == 2 + 2 * n
  {
    PageAnswered(doc, variables, l, arguments, n);
    PageValues(l, n);
    ListPrice(doc, l, arguments);
    assert Times(m, 3) == m * 3;
  }

  /** A response to a list field with these arguments, under a validated document, costs what it was charged or less. */
  ghost predicate StaysWithinCost(fragments: map<string, Fragment>, rank: string -> nat, bound: nat,
                                  variables: Variables, r: Response,
                                  l: ListField, alias: Option<string>, arguments: seq<Argument>, sub: seq<Selection>)
  {
    var doc, query := Document(fragments, LIST_TYPES), ListSelection(l, alias, arguments, sub);
    Valid(doc, rank) && Fine(rank, bound, sub) && MayAnswer(doc, variables, r, query, "Query", 1) ==>
      Values(r) <= MeasureSet(doc, query, "Query", 1, {}).cost
  }

  /**
   For each list field and argument list, every response to every validated sub-selection stays within
   the price exactly when the limit is absent, null, or a literal other than 0.
   */
  lemma {:induction false} WithinCostIffPriced(l: ListField, arguments: seq<Argument>)
    requires IsList(l)
    ensures LimitPriced(arguments)
       <==> forall fragments, rank, bound, variables, r, alias, sub ::
              StaysWithinCost(fragments, rank, bound, variables, r, l, alias, arguments, sub)
  {
    if LimitPriced(arguments) {
      forall fragments, rank, bound, variables, r, alias, sub
        ensures StaysWithinCost(fragments, rank, bound, variables, r, l, alias, arguments, sub)
      {
        PricedStaysWithin(fragments, rank, bound, variables, r, l, alias, arguments, sub);
      }
    } else {
      UnpricedOverruns(l, arguments);
    }
  }

  lemma {:induction false} PricedStaysWithin(fragments: map<string, Fragment>, rank: string -> nat, bound: nat,
                                             variables: Variables, r: Response, l: ListField, alias: Option<string>,
                                             arguments: seq<Argument>, sub: seq<Selection>)
    requires LimitPriced(arguments)
    ensures StaysWithinCost(fragments, rank, bound, variables, r, l, alias, arguments, sub)
  {
    var doc, query := Document(fragments, LIST_TYPES), ListSelection(l, alias, arguments, sub);
    if Valid(doc, rank) && Fine(rank, bound, sub) && MayAnswer(doc, variables, r, query, "Query", 1) {
      FieldIsFine(rank, bound, query[0]);
      assert query == [query[0]];
      CostBoundsResponse(doc, rank, bound, variables, r, query, "Query");
    }
  }

  lemma {:induction false} UnpricedOverruns(l: ListField, arguments: seq<Argument>)
    requires IsList(l) && !LimitPriced(arguments)
    ensures exists rank, bound, variables, r ::
              !StaysWithinCost(map[], rank, bound, variables, r, l, None, arguments, Edges(l))
  {
    var variables := MoreRowsThanPriced(l, arguments);
    var n, m := MaxRows(arguments, variables), Multiplier(Key("Query", l.name), arguments);
    var rank: string -> nat := name => 0;
    ListShape(l);
    Overrun(LIST_DOCUMENT, l, arguments, variables, n, m);
    EdgesAreFine(rank, l);
    NoFragments(rank);
    hide MayAnswer, Values, Fine, Valid, MaxRows, Multiplier, Key, LimitPriced, Shape, IsList, MeasureSet, Edges;
    assert !StaysWithinCost(map[], rank, 0, variables, PageResponse(l, n), l, None, arguments, Edges(l));
  }

  lemma {:induction false} NoFragments(rank: string -> nat)
    ensures Valid(Document(map[], LIST_TYPES), rank)
  {
  }

  lemma {:induction false} MoreRowsThanPriced(l: ListField, arguments: seq<Argument>) returns (variables: Variables)
    requires IsList(l) && !LimitPriced(arguments)
    ensures 2 + 2 * MaxRows(arguments, variables) > 10 + Multiplier(Key("Query", l.name), arguments) * 3
  {
    ListKey(l);
    hide Key, IsListField;
    variables := match LimitArgument(arguments)
      case Some(Variable(name)) => map[name := Some(100)]
      case _ => map[];
  }

  lemma {:induction false} FieldIsFine(rank: string -> nat, bound: nat, f: Selection)
    requires f.Field? && LimitPriced(f.arguments) && Fine(rank, bound, f.selectionSet)
    ensures Fine(rank, bound, [f])
  {
    assert [f][1..] == [];
    assert SpreadsBelow(rank, [], bound) && LimitsPriced([]);
  }

  lemma {:induction false} EdgesAreFine(rank: string -> nat, l: ListField)
    ensures Fine(rank, 0, Edges(l))
  {
    assert Fine(rank, 0, []);
    FieldIsFine(rank, 0, Plain(l.a));
    FieldIsFine(rank, 0, Plain(l.b));
    FineAdds(rank, 0, [Plain(l.a)], [Plain(l.b)]);
    assert [Plain(l.a)] + [Plain(l.b)] == RowFields(l);
    FieldIsFine(rank, 0, Edges(l)[0]);
    assert Edges(l) == [Edges(l)[0]];
  }
}
