/**
 What the query budget counts, without its accumulators (backend/src/graphql/queryBudget.ts, `walk`):
 the field occurrences that a query reaches, each with the fields it is nested in. Aliases are the
 occurrences that carry one, depth is the longest nesting, and cost adds up what each occurrence is
 worth by itself.
 */
module QueryOccurrences {
  import opened Wrappers
  import opened QueryBudget

  /** A field selected on an object of type `parent`. */
  datatype Step = Step(parent: string, name: string, alias: Option<string>, arguments: seq<Argument>)

  /** One occurrence: the fields around it, outermost first, and itself at the end. */
  type Path = p: seq<Step> | p != [] witness [Step("", "", None, [])]

  /** The paths of `inner` under one more field. */
  function Under(step: Step, inner: seq<Path>): (outer: seq<Path>)
    ensures |outer| == |inner|
    ensures forall i :: 0 <= i < |inner| ==> outer[i] == [step] + inner[i]
  {
    if inner == [] then [] else [[step] + inner[0]] + Under(step, inner[1..])
  }

  /**
   The occurrences in document order. Fields whose names start with two underscores do not count, a
   fragment is entered once per path and only on an object type, and below a field only an object type
   is entered.
   */
  function Occurrences(doc: Document, selections: seq<Selection>, parent: string, seen: set<string>): seq<Path>
    decreases doc.fragments.Keys - seen, selections, 0
  {
    if selections == [] then []
    else OccurrencesOf(doc, selections[0], parent, seen) + Occurrences(doc, selections[1..], parent, seen)
  }

  function OccurrencesOf(doc: Document, sel: Selection, parent: string, seen: set<string>): seq<Path>
    decreases doc.fragments.Keys - seen, sel, 1
  {
    match sel
    case Field(name, alias, arguments, sub) =>
      if "__" <= name then []
      else
        var step := Step(parent, name, alias, arguments);
        var child := doc.ChildType(parent, name);
        [[step]] + if child == None then [] else Under(step, Occurrences(doc, sub, child.value, seen))
    case InlineFragment(_, body) => Occurrences(doc, body, parent, seen)
    case FragmentSpread(name) =>
      if name in seen || name !in doc.fragments || !doc.IsObject(doc.fragments[name].condition) then []
      else Occurrences(doc, doc.fragments[name].body, doc.fragments[name].condition, seen + {name})
  }

  // ----- what an occurrence is worth

  /** The weight of a field: the source's five, and 1 for any other. */
  function Weight(step: Step): nat {
    if step.parent != "Query" then 1
    else if step.name == "loans" || step.name == "scores" || step.name == "remittances" then 10
    else if step.name == "poolBalance" || step.name == "totalOutstanding" then 25
    else 1
  }

  /** A list field with a limit: argument `i` is the first one so named. */
  predicate FirstLimit(arguments: seq<Argument>, i: nat) {
    && i < |arguments| && arguments[i].name == "limit"
    && forall j :: 0 <= j < i ==> arguments[j].name != "limit"
  }

  /** How often everything below a field counts: its literal limit but at least once, fifty times without one. */
  ghost predicate TimesBelow(step: Step, m: nat) {
    if step.parent == "Query" && (step.name == "loans" || step.name == "scores" || step.name == "remittances") then
      && (forall i: nat, n :: FirstLimit(step.arguments, i) && step.arguments[i].value == IntLiteral(n) ==> m == Max(1, n))
      && ((forall i: nat :: FirstLimit(step.arguments, i) ==> !step.arguments[i].value.IntLiteral?) ==> m == 50)
    else m == 1
  }

  function Factor(step: Step): nat {
    Multiplier(Key(step.parent, step.name), step.arguments)
  }

  /** The weight of an occurrence times the factors of the fields around it. */
  function Worth(p: Path): nat
    decreases |p|
  {
    if |p| == 1 then Weight(p[0]) else Product(Factor(p[0]), Worth(p[1..]))
  }

  function Product(m: nat, n: nat): (r: nat)
    ensures r == m * n
  {
    MulNonNegative(m + 1, n);
    m * n
  }

  function Total(paths: seq<Path>): nat {
    if paths == [] then 0 else Worth(paths[0]) + Total(paths[1..])
  }

  function Aliased(paths: seq<Path>): nat {
    if paths == [] then 0
    else (if paths[0][|paths[0]| - 1].alias.Some? then 1 else 0) + Aliased(paths[1..])
  }

  /** The length of the longest path, and 0 without any. */
  function Longest(paths: seq<Path>): nat {
    if paths == [] then 0 else Max(|paths[0]|, Longest(paths[1..]))
  }

  // ----- the keys

  /** A key with one dot splits in one way. */
  lemma {:induction false} KeyIs(parent: string, name: string, p: string, n: string)
    requires forall i :: 0 <= i < |p| ==> p[i] != '.'
    requires forall i :: 0 <= i < |n| ==> n[i] != '.'
    ensures Key(parent, name) == Key(p, n) <==> parent == p && name == n
  {
    if Key(parent, name) == Key(p, n) {
      var k := Key(p, n);
      assert k[|p|] == '.' && k[|parent|] == '.';
      assert forall i :: 0 <= i < |p| ==> k[i] == p[i];
      assert forall i :: 0 <= i < |n| ==> k[|p| + 1 + i] == n[i];
      forall j | |p| < j < |k| ensures k[j] != '.' {
        assert k[j] == n[j - |p| - 1];
      }
      assert |parent| == |p|;
      assert parent == k[..|p|] == p;
      assert name == k[|p| + 1..] == n;
    }
  }

  lemma {:induction false} QueryKeyIs(parent: string, name: string, field: string)
    requires forall i :: 0 <= i < |field| ==> field[i] != '.'
    ensures Key(parent, name) == "Query." + field <==> parent == "Query" && name == field
  {
    assert "Query." + field == Key("Query", field);
    KeyIs(parent, name, "Query", field);
  }

  lemma {:induction false} ListFieldIs(step: Step)
    ensures IsListField(Key(step.parent, step.name))
       <==> step.parent == "Query" && (step.name == "loans" || step.name == "scores" || step.name == "remittances")
  {
    hide Key;
    QueryKeyIs(step.parent, step.name, "loans");
    QueryKeyIs(step.parent, step.name, "scores");
    QueryKeyIs(step.parent, step.name, "remittances");
    assert "Query." + "loans" == "Query.loans" && "Query." + "scores" == "Query.scores";
    assert "Query." + "remittances" == "Query.remittances";
  }

  lemma {:induction false} WeightIs(step: Step)
    ensures FieldWeight(Key(step.parent, step.name)) == Weight(step)
  {
    hide Key, IsListField;
    ListFieldIs(step);
    QueryKeyIs(step.parent, step.name, "poolBalance");
    QueryKeyIs(step.parent, step.name, "totalOutstanding");
    assert "Query." + "poolBalance" == "Query.poolBalance";
    assert "Query." + "totalOutstanding" == "Query.totalOutstanding";
  }

  lemma {:induction false} LimitIs(arguments: seq<Argument>)
    ensures LimitArgument(arguments).Some? ==>
              exists i: nat :: FirstLimit(arguments, i) && arguments[i].value == LimitArgument(arguments).value
    ensures LimitArgument(arguments) == None ==> forall i :: 0 <= i < |arguments| ==> arguments[i].name != "limit"
  {
    if arguments == [] {
    } else if arguments[0].name == "limit" {
      assert FirstLimit(arguments, 0);
    } else {
      var rest := arguments[1..];
      LimitIs(rest);
      assert forall i :: 0 < i < |arguments| ==> arguments[i] == rest[i - 1];
      if LimitArgument(rest).Some? {
        var i: nat :| FirstLimit(rest, i) && rest[i].value == LimitArgument(rest).value;
        assert arguments[i + 1] == rest[i];
        assert FirstLimit(arguments, i + 1);
      }
    }
  }

  /** The factor of a field is what its name and arguments say, and nothing else is. */
  lemma {:induction false} FactorIs(step: Step, m: nat)
    ensures TimesBelow(step, m) <==> m == Factor(step)
  {
    ListFieldIs(step);
    LimitIs(step.arguments);
    hide Key, IsListField, FieldWeight;
    forall i: nat, j: nat | FirstLimit(step.arguments, i) && FirstLimit(step.arguments, j) ensures i == j {
    }
  }

  // ----- the totals of a list of paths

  lemma {:induction false} TotalsAdd(a: seq<Path>, b: seq<Path>)
    ensures Total(a + b) == Total(a) + Total(b)
    ensures Aliased(a + b) == Aliased(a) + Aliased(b)
    ensures Longest(a + b) == Max(Longest(a), Longest(b))
  {
    if a == [] {
      assert a + b == b;
    } else {
      assert (a + b)[1..] == a[1..] + b;
      TotalsAdd(a[1..], b);
    }
  }

  lemma {:induction false} TotalsUnder(step: Step, inner: seq<Path>)
    ensures Total(Under(step, inner)) == Factor(step) * Total(inner)
    ensures Aliased(Under(step, inner)) == Aliased(inner)
    ensures Longest(Under(step, inner)) == if inner == [] then 0 else 1 + Longest(inner)
  {
    if inner == [] {
    } else {
      var p := [step] + inner[0];
      TotalsUnder(step, inner[1..]);
      assert Under(step, inner)[0] == p && Under(step, inner)[1..] == Under(step, inner[1..]);
      assert p[1..] == inner[0] && p[|p| - 1] == inner[0][|inner[0]| - 1];
      Distributes(Factor(step), Worth(inner[0]), Total(inner[1..]));
    }
  }

  lemma {:induction false} Distributes(m: nat, x: nat, y: nat)
    ensures m * x + m * y == m * (x + y)
  {
  }

  // ----- the measure counts the occurrences

  /** Depth as the walk counts it, from the depth at which it starts. */
  function DepthFrom(depth: nat, paths: seq<Path>): int {
    if paths == [] then 0 else depth + Longest(paths) - 1
  }

  ghost predicate Counts(m: Measure, depth: nat, paths: seq<Path>) {
    m.cost == Total(paths) && m.aliases == Aliased(paths) && m.depth == DepthFrom(depth, paths)
  }

  /** Cost, aliases and depth of a selection set are the totals over the occurrences it reaches. */
  lemma {:induction false} MeasureCountsOccurrences(doc: Document, selections: seq<Selection>, parent: string,
                                                    depth: nat, seen: set<string>)
    requires depth >= 1
    ensures Counts(MeasureSet(doc, selections, parent, depth, seen), depth, Occurrences(doc, selections, parent, seen))
    decreases doc.fragments.Keys - seen, selections, 0
  {
    if selections == [] {
    } else {
      MeasureCountsOne(doc, selections[0], parent, depth, seen);
      MeasureCountsOccurrences(doc, selections[1..], parent, depth, seen);
      var first := OccurrencesOf(doc, selections[0], parent, seen);
      var rest := Occurrences(doc, selections[1..], parent, seen);
      CountsAdd(MeasureSelection(doc, selections[0], parent, depth, seen),
                MeasureSet(doc, selections[1..], parent, depth, seen), depth, first, rest);
    }
  }

  lemma {:induction false} CountsAdd(m: Measure, n: Measure, depth: nat, a: seq<Path>, b: seq<Path>)
    requires depth >= 1 && Counts(m, depth, a) && Counts(n, depth, b)
    ensures Counts(m.Plus(n), depth, a + b)
  {
    hide Total, Aliased, Longest;
    TotalsAdd(a, b);
    LongestIsPositive(a);
    LongestIsPositive(b);
    assert a + b == [] <==> a == [] && b == [];
  }

  lemma {:induction false} LongestIsPositive(paths: seq<Path>)
    ensures if paths == [] then Longest(paths) == 0 else Longest(paths) >= 1
  {
  }

  lemma {:induction false} MeasureCountsOne(doc: Document, sel: Selection, parent: string, depth: nat, seen: set<string>)
    requires depth >= 1
    ensures Counts(MeasureSelection(doc, sel, parent, depth, seen), depth, OccurrencesOf(doc, sel, parent, seen))
    decreases doc.fragments.Keys - seen, sel, 1
  {
    match sel
    case Field(name, alias, arguments, sub) =>
      if !IsIntrospection(name) {
        var step, child := Step(parent, name, alias, arguments), doc.ChildType(parent, name);
        if child.Some? {
          MeasureCountsOccurrences(doc, sub, child.value, depth + 1, seen);
          FieldCounts(step, depth, MeasureSet(doc, sub, child.value, depth + 1, seen),
                      Occurrences(doc, sub, child.value, seen));
        } else {
          FieldCounts(step, depth, NOTHING, []);
        }
      }
    case InlineFragment(_, body) => MeasureCountsOccurrences(doc, body, parent, depth, seen);
    case FragmentSpread(name) =>
      if name !in seen && doc.Enterable(name) {
        MeasureCountsOccurrences(doc, doc.fragments[name].body, doc.fragments[name].condition, depth, seen + {name});
      }
  }

  /** A field counts itself, and what is below it as often as its factor says. */
  lemma {:induction false} FieldCounts(step: Step, depth: nat, inner: Measure, below: seq<Path>)
    requires depth >= 1 && Counts(inner, depth + 1, below)
    ensures Counts(FieldMeasure(Key(step.parent, step.name), step.alias.Some?, step.arguments, depth, inner),
                   depth, [[step]] + Under(step, below))
  {
    WeightIs(step);
    TotalsUnder(step, below);
    TotalsAdd([[step]], Under(step, below));
    LongestIsPositive(below);
    hide Key, FieldWeight, IsListField, Multiplier, Weight, Under;
    assert [[step]][1..] == [];
    assert Total([[step]]) == Weight(step) && Longest([[step]]) == 1;
    assert Aliased([[step]]) == if step.alias.Some? then 1 else 0;
  }

  /**
   The validation rule, on what a query reaches: an operation is let through exactly when it is no
   query, or nests no deeper, carries no more aliases and costs no more than the limits allow.
   */
  lemma {:induction false} RuleIsExact(limits: Limits, doc: Document, isQuery: bool, selections: seq<Selection>,
                                       rootType: string)
    ensures var paths := Occurrences(doc, selections, rootType, {});
            Accepts(limits, OperationDefinition(isQuery, selections), MeasureSet(doc, selections, rootType, 1, {}))
            <==> || !isQuery
                 || (Longest(paths) <= limits.maxDepth && Aliased(paths) <= limits.maxAliases
                     && Total(paths) <= limits.maxCost)
  {
    MeasureCountsOccurrences(doc, selections, rootType, 1, {});
    hide MeasureSet, Occurrences;
  }
}
