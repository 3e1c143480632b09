/**
 Fragment cycles (GraphQL specification, October 2021, section 5.5.2.2). Validation refuses a document
 in which a fragment reaches itself through spreads; this is what the ranks of the other modules stand
 for, and the results that need one are restated without.
 */
module FragmentCycles {
  import opened QueryBudget
  import opened QueryExecution

  /** The fragments spread in the tree, at any depth. */
  function SpreadNames(selections: seq<Selection>): set<string>
    decreases selections, 0
  {
    if selections == [] then {} else SpreadNamesOne(selections[0]) + SpreadNames(selections[1..])
  }

  function SpreadNamesOne(sel: Selection): set<string>
    decreases sel, 1
  {
    match sel
    case Field(_, _, _, sub) => SpreadNames(sub)
    case InlineFragment(_, body) => SpreadNames(body)
    case FragmentSpread(name) => {name}
  }

  lemma {:induction false} SpreadsBelowIff(rank: string -> nat, selections: seq<Selection>, bound: nat)
    ensures SpreadsBelow(rank, selections, bound) <==> forall n :: n in SpreadNames(selections) ==> rank(n) < bound
    decreases selections, 0
  {
    if selections == [] {
    } else {
      SpreadBelowIff(rank, selections[0], bound);
      SpreadsBelowIff(rank, selections[1..], bound);
    }
  }

  lemma {:induction false} SpreadBelowIff(rank: string -> nat, sel: Selection, bound: nat)
    ensures SpreadBelow(rank, sel, bound) <==> forall n :: n in SpreadNamesOne(sel) ==> rank(n) < bound
    decreases sel, 1
  {
    match sel
    case Field(_, _, _, sub) => SpreadsBelowIff(rank, sub, bound);
    case InlineFragment(_, body) => SpreadsBelowIff(rank, body, bound);
    case FragmentSpread(_) =>
  }

  /** Fragment `a` spreads `b`. */
  predicate Edge(doc: Document, a: string, b: string) {
    a in doc.fragments && b in SpreadNames(doc.fragments[a].body)
  }

  ghost predicate IsPath(doc: Document, p: seq<string>) {
    |p| >= 2 && forall i :: 0 <= i < |p| - 1 ==> Edge(doc, p[i], p[i + 1])
  }

  ghost predicate Reaches(doc: Document, a: string, b: string) {
    exists p :: IsPath(doc, p) && p[0] == a && p[|p| - 1] == b
  }

  ghost predicate NoCycle(doc: Document) {
    forall name :: !Reaches(doc, name, name)
  }

  /** Every name that some fragment spreads. */
  function SpreadSomewhere(doc: Document): set<string> {
    set n, m | n in doc.fragments && m in SpreadNames(doc.fragments[n].body) :: m
  }

  ghost function Reachable(doc: Document, a: string): set<string> {
    set b | b in SpreadSomewhere(doc) && Reaches(doc, a, b)
  }

  lemma {:induction false} EdgeReaches(doc: Document, a: string, b: string)
    requires Edge(doc, a, b)
    ensures b in Reachable(doc, a)
  {
    var p := [a, b];
    assert IsPath(doc, p) && p[0] == a && p[|p| - 1] == b;
  }

  lemma {:induction false} EdgeThenReaches(doc: Document, a: string, b: string, c: string)
    requires Edge(doc, a, b) && Reaches(doc, b, c)
    ensures Reaches(doc, a, c)
  {
    var p :| IsPath(doc, p) && p[0] == b && p[|p| - 1] == c;
    var q := [a] + p;
    assert forall i :: 0 < i < |q| - 1 ==> q[i] == p[i - 1] && q[i + 1] == p[i];
    assert IsPath(doc, q) && q[0] == a && q[|q| - 1] == c;
  }

  lemma {:induction false} ReachableShrinks(doc: Document, a: string, b: string)
    requires NoCycle(doc) && Edge(doc, a, b)
    ensures |Reachable(doc, b)| < |Reachable(doc, a)|
  {
    EdgeReaches(doc, a, b);
    forall c | c in Reachable(doc, b) ensures c in Reachable(doc, a) {
      EdgeThenReaches(doc, a, b, c);
    }
    assert b !in Reachable(doc, b);
    Smaller(Reachable(doc, b), Reachable(doc, a), b);
  }

  lemma {:induction false} Smaller(x: set<string>, y: set<string>, e: string)
    requires x <= y && e in y && e !in x
    ensures |x| < |y|
  {
    assert y == x + (y - x) && e in y - x;
  }

  ghost function RankOf(doc: Document): string -> nat {
    name => |Reachable(doc, name)|
  }

  lemma {:induction false} RankIsAcyclic(doc: Document)
    requires NoCycle(doc)
    ensures Acyclic(doc, RankOf(doc))
  {
    forall name | name in doc.fragments
      ensures SpreadsBelow(RankOf(doc), doc.fragments[name].body, RankOf(doc)(name))
    {
      forall n | n in SpreadNames(doc.fragments[name].body) ensures RankOf(doc)(n) < RankOf(doc)(name) {
        ReachableShrinks(doc, name, n);
      }
      SpreadsBelowIff(RankOf(doc), doc.fragments[name].body, RankOf(doc)(name));
    }
  }

  lemma {:induction false} PathFalls(doc: Document, rank: string -> nat, p: seq<string>)
    requires Acyclic(doc, rank) && IsPath(doc, p)
    ensures rank(p[|p| - 1]) < rank(p[0])
    decreases |p|
  {
    assert Edge(doc, p[0], p[1]);
    SpreadsBelowIff(rank, doc.fragments[p[0]].body, rank(p[0]));
    if |p| == 2 {
    } else {
      var q := p[1..];
      forall i | 0 <= i < |q| - 1 ensures Edge(doc, q[i], q[i + 1]) {
        assert Edge(doc, p[i + 1], p[i + 2]);
      }
      PathFalls(doc, rank, q);
    }
  }

  /** A rank that falls along every spread exists exactly when no fragment reaches itself. */
  lemma {:induction false} RankExistsIff(doc: Document)
    ensures (exists rank :: Acyclic(doc, rank)) <==> NoCycle(doc)
  {
    if rank :| Acyclic(doc, rank) {
      forall name ensures !Reaches(doc, name, name) {
        if p :| IsPath(doc, p) && p[0] == name && p[|p| - 1] == name {
          PathFalls(doc, rank, p);
        }
      }
    }
    if NoCycle(doc) {
      RankIsAcyclic(doc);
    }
  }

  /** Priced limits everywhere: in the query and in every fragment. */
  ghost predicate AllPriced(doc: Document, selections: seq<Selection>) {
    LimitsPriced(selections) && forall name :: name in doc.fragments ==> LimitsPriced(doc.fragments[name].body)
  }

  lemma {:induction false} RanksAreBounded(doc: Document, selections: seq<Selection>)
    ensures SpreadsBelow(RankOf(doc), selections, |SpreadSomewhere(doc)| + 1)
  {
    forall n | n in SpreadNames(selections) ensures RankOf(doc)(n) < |SpreadSomewhere(doc)| + 1 {
      assert SpreadSomewhere(doc) == Reachable(doc, n) + (SpreadSomewhere(doc) - Reachable(doc, n));
    }
    SpreadsBelowIff(RankOf(doc), selections, |SpreadSomewhere(doc)| + 1);
  }

  /** Without any certificate: responses to a query without fragment cycles and with priced limits stay within its cost ... */
  lemma {:induction false} CostBoundsEveryResponse(doc: Document, variables: Variables, r: Response,
                                                   selections: seq<Selection>, rootType: string)
    requires NoCycle(doc) && AllPriced(doc, selections) && doc.IsObject(rootType)
    requires MayAnswer(doc, variables, r, selections, rootType, 1)
    ensures Values(r) <= MeasureSet(doc, selections, rootType, 1, {}).cost
  {
    var rank, bound := RankOf(doc), |SpreadSomewhere(doc)| + 1;
    RankIsAcyclic(doc);
    RanksAreBounded(doc, selections);
    hide MayAnswer, MeasureSet, Values, RankOf;
    CostBoundsResponse(doc, rank, bound, variables, r, selections, rootType);
  }

  /** ... and under the configured maximum when the rule accepts it. */
  lemma {:induction false} AcceptedResponsesStayWithinBudget(limits: Limits, doc: Document, variables: Variables,
                                                             r: Response, selections: seq<Selection>,
                                                             rootType: string)
    requires NoCycle(doc) && AllPriced(doc, selections) && doc.IsObject(rootType)
    requires Accepts(limits, OperationDefinition(true, selections), MeasureSet(doc, selections, rootType, 1, {}))
    requires MayAnswer(doc, variables, r, selections, rootType, 1)
    ensures Values(r) <= limits.maxCost
  {
    CostBoundsEveryResponse(doc, variables, r, selections, rootType);
  }
}
