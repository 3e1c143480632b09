/**
 The WHERE builder of the event endpoints (backend/src/controllers/indexerController.ts,
 `buildEventFilters` and the keyset clauses). The text it builds is a list of tokens with
 numbered placeholders; an independent reader parses that text with SQL's precedence and
 evaluates it over the parameters. The builder is correct when reading its text gives the
 conjunction of the requested predicates.
 */
module EventQuery {
  import opened Wrappers

  // ----- rows and parameter values

  datatype Row = Row(
    id: int,
    eventType: string,
    address: Option<string>,
    loanId: Option<int>,
    amount: Option<real>,
    ledgerClosedAt: int,
    createdAt: int,
    seqNo: int)

  /** A parameter as the column it is compared with reads it. */
  datatype Value = Text(s: string) | Number(x: real) | Whole(n: int) | Instant(t: int)

  datatype Column = EventType | Address | LoanId | AmountAsNumeric | LedgerClosedAt | CreatedAt | SeqNo

  /** The value of a column; None is NULL. */
  function ColumnValue(row: Row, c: Column): Option<Value> {
    match c
    case EventType => Some(Text(row.eventType))
    case Address => (match row.address case Some(a) => Some(Text(a)) case None => None)
    case LoanId => (match row.loanId case Some(n) => Some(Whole(n)) case None => None)
    case AmountAsNumeric => (match row.amount case Some(x) => Some(Number(x)) case None => None)
    case LedgerClosedAt => Some(Instant(row.ledgerClosedAt))
    case CreatedAt => Some(Instant(row.createdAt))
    case SeqNo => Some(Whole(row.seqNo))
  }

  // ----- query text

  datatype Token =
    | WHERE | AND | OR | OPEN | CLOSE
    | Col(column: Column)
    | EQ | LT | LE | BETWEEN
    | Placeholder(n: nat)

  /** Placeholders in order of appearance. */
  function Placeholders(text: seq<Token>): seq<nat> {
    if text == [] then []
    else (if text[0].Placeholder? then [text[0].n] else []) + Placeholders(text[1..])
  }

  /** The numbers 1 to n. */
  function Numbers(n: nat): seq<nat> {
    seq(n, i requires i >= 0 => i + 1)
  }

  // ----- reading the text

  /** A truth value and the text that follows; a comparison with NULL is not true. */
  datatype Reading = Reading(holds: bool, rest: seq<Token>)

  function Argument(params: seq<Value>, n: nat): Option<Value> {
    if 1 <= n <= |params| then Some(params[n - 1]) else None
  }

  function Compare(op: Token, v: Option<Value>, w: Value): Option<bool> {
    match v
    case None => Some(false)
    case Some(Text(a)) => if w.Text? && op.EQ? then Some(a == w.s) else None
    case Some(Number(a)) => if w.Number? && op.LE? then Some(a <= w.x) else None
    case Some(Whole(a)) =>
      if !w.Whole? then None
      else (match op case EQ => Some(a == w.n) case LT => Some(a < w.n) case LE => Some(a <= w.n) case _ => None)
    case Some(Instant(a)) =>
      if !w.Instant? then None
      else (match op case EQ => Some(a == w.t) case LT => Some(a < w.t) case LE => Some(a <= w.t) case _ => None)
  }

  function InRange(lo: Value, v: Option<Value>, hi: Value): Option<bool> {
    match v
    case None => Some(false)
    case Some(Number(a)) => if lo.Number? && hi.Number? then Some(lo.x <= a <= hi.x) else None
    case Some(Instant(a)) => if lo.Instant? && hi.Instant? then Some(lo.t <= a <= hi.t) else None
    case _ => None
  }

  /** column op $n, or column BETWEEN $m AND $n */
  function ReadComparison(text: seq<Token>, params: seq<Value>, row: Row): (r: Option<Reading>)
    ensures r.Some? ==> |r.value.rest| < |text| && r.value.rest == text[|text| - |r.value.rest|..]
  {
    if |text| < 3 || !text[0].Col? || !text[2].Placeholder? then None
    else
      var v := ColumnValue(row, text[0].column);
      if text[1].BETWEEN? then
        if |text| < 5 || !text[3].AND? || !text[4].Placeholder? then None
        else
          match (Argument(params, text[2].n), Argument(params, text[4].n))
          case (Some(lo), Some(hi)) =>
            (match InRange(lo, v, hi) case Some(b) => Some(Reading(b, text[5..])) case None => None)
          case _ => None
      else
        match Argument(params, text[2].n)
        case Some(w) => (match Compare(text[1], v, w) case Some(b) => Some(Reading(b, text[3..])) case None => None)
        case None => None
  }

  /** A comparison, or a parenthesised disjunction. */
  function ReadPrimary(text: seq<Token>, params: seq<Value>, row: Row): (r: Option<Reading>)
    ensures r.Some? ==> |r.value.rest| < |text|
    decreases |text|, 0
  {
    if text == [] then None
    else if text[0].OPEN? then
      match ReadOr(text[1..], params, row)
      case Some(Reading(b, rest)) => if rest != [] && rest[0].CLOSE? then Some(Reading(b, rest[1..])) else None
      case None => None
    else ReadComparison(text, params, row)
  }

  /** Primaries joined by AND, which binds tighter than OR. */
  function ReadAnd(text: seq<Token>, params: seq<Value>, row: Row): (r: Option<Reading>)
    ensures r.Some? ==> |r.value.rest| < |text|
    decreases |text|, 1
  {
    match ReadPrimary(text, params, row)
    case Some(Reading(b, rest)) =>
      if rest != [] && rest[0].AND? then
        match ReadAnd(rest[1..], params, row)
        case Some(more) => Some(Reading(b && more.holds, more.rest))
        case None => None
      else Some(Reading(b, rest))
    case None => None
  }

  function ReadOr(text: seq<Token>, params: seq<Value>, row: Row): (r: Option<Reading>)
    ensures r.Some? ==> |r.value.rest| < |text|
    decreases |text|, 2
  {
    match ReadAnd(text, params, row)
    case Some(Reading(b, rest)) =>
      if rest != [] && rest[0].OR? then
        match ReadOr(rest[1..], params, row)
        case Some(more) => Some(Reading(b || more.holds, more.rest))
        case None => None
      else Some(Reading(b, rest))
    case None => None
  }

  /** Whether a row satisfies a whole clause; None when the clause is not well formed. */
  function Satisfies(clause: seq<Token>, params: seq<Value>, row: Row): Option<bool> {
    if clause == [] then Some(true)
    else if !clause[0].WHERE? then None
    else
      match ReadOr(clause[1..], params, row)
      case Some(Reading(b, rest)) => if rest == [] then Some(b) else None
      case None => None
  }

  // ----- requests

  datatype Range<T> = Range(lo: T, hi: T)

  /** The filters of a request after query parsing; an absent or blank status is None. */
  datatype Filters = Filters(
    status: Option<string>,
    eventType: Option<string>,
    amountRange: Option<Range<real>>,
    dateRange: Option<Range<int>>)

  /** What an endpoint lists: one borrower's events, one loan's, or all. */
  datatype Base = Borrower(address: string) | Loan(loanId: int) | Recent

  datatype Cursor = Cursor(createdAt: int, seqNo: int)

  function RequestedStatus(f: Filters): Option<string> {
    var s :=
      if f.status.Some? && f.status.value != "" && f.status.value != "all" then f.status
      else f.eventType;
    if s == Some("") then None else s
  }

  // ----- what is requested, independently of any text

  predicate BaseHolds(base: Base, row: Row) {
    match base
    case Borrower(a) => row.address == Some(a)
    case Loan(n) => row.loanId == Some(n)
    case Recent => true
  }

  /** A status asks for that event type, unless it is blank or "all"; then the eventType parameter does, unless blank. */
  predicate FiltersHold(f: Filters, row: Row) {
    && (f.status.Some? && f.status.value != "" && f.status.value != "all" ==> row.eventType == f.status.value)
    && ((f.status == None || f.status.value == "" || f.status.value == "all") && f.eventType.Some? && f.eventType.value != "" ==>
          row.eventType == f.eventType.value)
    && (f.amountRange.Some? ==> row.amount.Some? && f.amountRange.value.lo <= row.amount.value <= f.amountRange.value.hi)
    && (f.dateRange.Some? ==> f.dateRange.value.lo <= row.ledgerClosedAt <= f.dateRange.value.hi)
  }

  /** Strictly after the cursor in the order (created_at DESC, seq DESC). */
  predicate PastCursor(c: Cursor, row: Row) {
    row.createdAt < c.createdAt || (row.createdAt == c.createdAt && row.seqNo < c.seqNo)
  }

  /** The rows of a snapshot: what the count query counts. */
  predicate InSnapshot(base: Base, f: Filters, snapshot: int, row: Row) {
    BaseHolds(base, row) && FiltersHold(f, row) && row.seqNo <= snapshot
  }

  predicate OnPage(base: Base, f: Filters, snapshot: int, cursor: Option<Cursor>, row: Row) {
    InSnapshot(base, f, snapshot, row) && (cursor.Some? ==> PastCursor(cursor.value, row))
  }

  // ----- the builder

  datatype Statement = Statement(clause: seq<Token>, params: seq<Value>)

  /** whereClause += whereClause.includes('WHERE') ? ` AND ${condition}` : ` WHERE ${condition}` */
  function Append(clause: seq<Token>, condition: seq<Token>): seq<Token> {
    if WHERE in clause then clause + [AND] + condition else clause + [WHERE] + condition
  }

  function BaseClause(base: Base): Statement {
    match base
    case Borrower(a) => Statement([WHERE, Col(Address), EQ, Placeholder(1)], [Text(a)])
    case Loan(n) => Statement([WHERE, Col(LoanId), EQ, Placeholder(1)], [Whole(n)])
    case Recent => Statement([], [])
  }

  /** The placeholders of a statement are exactly $1 to $n, in order and each once, for its n parameters. */
  predicate Numbered(clause: seq<Token>, params: seq<Value>) {
    Placeholders(clause) == Numbers(|params|)
  }

  /**
   A clause under construction says `b` about `row`: it is a conjunction, so that one more
   condition can be joined to it by AND without changing how the rest is read.
   */
  predicate Says(clause: seq<Token>, params: seq<Value>, row: Row, b: bool) {
    if clause == [] then b
    else clause[0].WHERE? && ReadAnd(clause[1..], params, row) == Some(Reading(b, []))
  }

  /** A condition that reads as one primary. */
  predicate IsCondition(condition: seq<Token>, params: seq<Value>, row: Row, b: bool) {
    ReadPrimary(condition, params, row) == Some(Reading(b, []))
  }

  // ----- reading one level at a time

  lemma {:induction false} AndIsPrimary(text: seq<Token>, params: seq<Value>, row: Row, b: bool, rest: seq<Token>)
    requires ReadPrimary(text, params, row) == Some(Reading(b, rest))
    requires rest == [] || !rest[0].AND?
    ensures ReadAnd(text, params, row) == Some(Reading(b, rest))
  {
  }

  lemma {:induction false} AndIsMore(text: seq<Token>, params: seq<Value>, row: Row, b: bool, more: seq<Token>,
                                     c: bool, rest: seq<Token>)
    requires ReadPrimary(text, params, row) == Some(Reading(b, [AND] + more))
    requires ReadAnd(more, params, row) == Some(Reading(c, rest))
    ensures ReadAnd(text, params, row) == Some(Reading(b && c, rest))
  {
    assert ([AND] + more)[1..] == more;
  }

  lemma {:induction false} OrIsAnd(text: seq<Token>, params: seq<Value>, row: Row, b: bool, rest: seq<Token>)
    requires ReadAnd(text, params, row) == Some(Reading(b, rest))
    requires rest == [] || !rest[0].OR?
    ensures ReadOr(text, params, row) == Some(Reading(b, rest))
  {
  }

  lemma {:induction false} OrIsMore(text: seq<Token>, params: seq<Value>, row: Row, b: bool, more: seq<Token>, c: bool,
                                    rest: seq<Token>)
    requires ReadAnd(text, params, row) == Some(Reading(b, [OR] + more))
    requires ReadOr(more, params, row) == Some(Reading(c, rest))
    ensures ReadOr(text, params, row) == Some(Reading(b || c, rest))
  {
    assert ([OR] + more)[1..] == more;
  }

  lemma {:induction false} PrimaryIsGroup(inner: seq<Token>, params: seq<Value>, row: Row, b: bool, rest: seq<Token>)
    requires ReadOr(inner, params, row) == Some(Reading(b, [CLOSE] + rest))
    ensures ReadPrimary([OPEN] + inner, params, row) == Some(Reading(b, rest))
  {
    assert ([OPEN] + inner)[1..] == inner && ([CLOSE] + rest)[1..] == rest;
  }

  // ----- reading is stable under appending text and parameters

  lemma {:induction false} ComparisonExtends(text: seq<Token>, more: seq<Token>, params: seq<Value>, row: Row)
    requires ReadComparison(text, params, row).Some?
    ensures var r := ReadComparison(text, params, row).value;
            ReadComparison(text + more, params, row) == Some(Reading(r.holds, r.rest + more))
  {
    if text[1].BETWEEN? {
      assert (text + more)[5..] == text[5..] + more;
    } else {
      assert (text + more)[3..] == text[3..] + more;
    }
  }

  lemma {:induction false} PrimaryExtends(text: seq<Token>, more: seq<Token>, params: seq<Value>, row: Row)
    requires ReadPrimary(text, params, row).Some?
    ensures var r := ReadPrimary(text, params, row).value;
            ReadPrimary(text + more, params, row) == Some(Reading(r.holds, r.rest + more))
    decreases |text|, 0
  {
    if text[0].OPEN? {
      var inner := ReadOr(text[1..], params, row).value;
      OrExtends(text[1..], more, params, row);
      assert (text + more)[1..] == text[1..] + more;
      assert (inner.rest + more)[1..] == inner.rest[1..] + more;
    } else {
      ComparisonExtends(text, more, params, row);
    }
  }

  predicate Stops(text: seq<Token>) {
    text == [] || (!text[0].AND? && !text[0].OR?)
  }

  lemma {:induction false} AndExtends(text: seq<Token>, more: seq<Token>, params: seq<Value>, row: Row)
    requires ReadAnd(text, params, row).Some?
    requires ReadAnd(text, params, row).value.rest == [] ==> Stops(more)
    ensures var r := ReadAnd(text, params, row).value;
            ReadAnd(text + more, params, row) == Some(Reading(r.holds, r.rest + more))
    decreases |text|, 1
  {
    var rest := ReadPrimary(text, params, row).value.rest;
    PrimaryExtends(text, more, params, row);
    if rest == [] {
      assert rest + more == more;
    } else {
      assert (rest + more)[0] == rest[0] && (rest + more)[1..] == rest[1..] + more;
      if rest[0].AND? {
        AndExtends(rest[1..], more, params, row);
      }
    }
  }

  lemma {:induction false} OrExtends(text: seq<Token>, more: seq<Token>, params: seq<Value>, row: Row)
    requires ReadOr(text, params, row).Some?
    requires ReadOr(text, params, row).value.rest == [] ==> Stops(more)
    ensures var r := ReadOr(text, params, row).value;
            ReadOr(text + more, params, row) == Some(Reading(r.holds, r.rest + more))
    decreases |text|, 2
  {
    var rest := ReadAnd(text, params, row).value.rest;
    AndExtends(text, more, params, row);
    if rest == [] {
      assert rest + more == more;
    } else {
      assert (rest + more)[0] == rest[0] && (rest + more)[1..] == rest[1..] + more;
      if rest[0].OR? {
        OrExtends(rest[1..], more, params, row);
      }
    }
  }

  lemma {:induction false} HeadTail(s: seq<Token>, t: seq<Token>)
    requires s != []
    ensures s + t == [s[0]] + (s[1..] + t)
  {
  }

  /** Joining a condition to a conjunction by AND conjoins what they say. */
  lemma {:induction false} AndJoins(text: seq<Token>, condition: seq<Token>, params: seq<Value>, row: Row, b: bool,
                                    c: bool)
    requires ReadAnd(text, params, row) == Some(Reading(b, []))
    requires IsCondition(condition, params, row, c)
    ensures ReadAnd(text + ([AND] + condition), params, row) == Some(Reading(b && c, []))
    decreases |text|
  {
    var first := ReadPrimary(text, params, row).value;
    var tail := [AND] + condition;
    PrimaryExtends(text, tail, params, row);
    if first.rest == [] {
      assert first.rest + tail == tail;
      AndIsPrimary(condition, params, row, c, []);
      AndIsMore(text + tail, params, row, first.holds, condition, c, []);
    } else {
      var more := first.rest[1..];
      var m := ReadAnd(more, params, row).value.holds;
      AndJoins(more, condition, params, row, m, c);
      HeadTail(first.rest, tail);
      AndIsMore(text + tail, params, row, first.holds, more + tail, m && c, []);
    }
  }

  lemma {:induction false} PrimaryKeeps(text: seq<Token>, params: seq<Value>, more: seq<Value>, row: Row)
    requires ReadPrimary(text, params, row).Some?
    ensures ReadPrimary(text, params + more, row) == ReadPrimary(text, params, row)
    decreases |text|, 0
  {
    if text[0].OPEN? {
      OrKeeps(text[1..], params, more, row);
    }
  }

  lemma {:induction false} AndKeeps(text: seq<Token>, params: seq<Value>, more: seq<Value>, row: Row)
    requires ReadAnd(text, params, row).Some?
    ensures ReadAnd(text, params + more, row) == ReadAnd(text, params, row)
    decreases |text|, 1
  {
    var rest := ReadPrimary(text, params, row).value.rest;
    PrimaryKeeps(text, params, more, row);
    if rest != [] && rest[0].AND? {
      AndKeeps(rest[1..], params, more, row);
    }
  }

  lemma {:induction false} OrKeeps(text: seq<Token>, params: seq<Value>, more: seq<Value>, row: Row)
    requires ReadOr(text, params, row).Some?
    ensures ReadOr(text, params + more, row) == ReadOr(text, params, row)
    decreases |text|, 2
  {
    var rest := ReadAnd(text, params, row).value.rest;
    AndKeeps(text, params, more, row);
    if rest != [] && rest[0].OR? {
      OrKeeps(rest[1..], params, more, row);
    }
  }

  lemma {:induction false} PlaceholdersAdd(a: seq<Token>, b: seq<Token>)
    ensures Placeholders(a + b) == Placeholders(a) + Placeholders(b)
  {
    if a == [] {
      assert a + b == b;
    } else {
      var first := if a[0].Placeholder? then [a[0].n] else [];
      PlaceholdersAdd(a[1..], b);
      assert (a + b)[0] == a[0] && (a + b)[1..] == a[1..] + b;
      assert first + (Placeholders(a[1..]) + Placeholders(b)) == first + Placeholders(a[1..]) + Placeholders(b);
    }
  }

  /** One appended condition: the clause says the conjunction ... */
  lemma {:induction false} AppendSays(clause: seq<Token>, params: seq<Value>, condition: seq<Token>, more: seq<Value>,
                                      row: Row, b: bool, c: bool)
    requires Says(clause, params, row, b) && IsCondition(condition, params + more, row, c)
    ensures Says(Append(clause, condition), params + more, row, b && c)
  {
    if clause == [] {
      AndIsPrimary(condition, params + more, row, c, []);
      assert Append(clause, condition)[1..] == condition;
    } else {
      JoinSays(clause, params, condition, more, row, b, c);
    }
  }

  lemma {:induction false} TailOfJoin(clause: seq<Token>, condition: seq<Token>)
    requires clause != [] && clause[0].WHERE?
    ensures Append(clause, condition)[0].WHERE?
    ensures Append(clause, condition)[1..] == clause[1..] + ([AND] + condition)
  {
  }

  lemma {:induction false} JoinSays(clause: seq<Token>, params: seq<Value>, condition: seq<Token>, more: seq<Value>,
                                    row: Row, b: bool, c: bool)
    requires clause != [] && Says(clause, params, row, b) && IsCondition(condition, params + more, row, c)
    ensures Says(Append(clause, condition), params + more, row, b && c)
  {
    hide ReadPrimary, ReadOr;
    AndKeeps(clause[1..], params, more, row);
    AndJoins(clause[1..], condition, params + more, row, b, c);
    TailOfJoin(clause, condition);
  }

  /** ... and the numbering continues. */
  lemma {:induction false} AppendNumbered(clause: seq<Token>, params: seq<Value>, condition: seq<Token>,
                                          more: seq<Value>)
    requires Numbered(clause, params)
    requires Placeholders(condition) == NumbersAfter(|params|, |more|)
    ensures Numbered(Append(clause, condition), params + more)
  {
    var joint := if WHERE in clause then [AND] else [WHERE];
    NoPlaceholder(joint);
    hide Placeholders;
    PlaceholdersAdd(clause, joint);
    PlaceholdersAdd(clause + joint, condition);
    NumbersAdd(|params|, |more|);
  }

  /** The numbers n + 1 to n + k. */
  function NumbersAfter(n: nat, k: nat): seq<nat> {
    seq(k, i requires i >= 0 => n + i + 1)
  }

  lemma {:induction false} NumbersAdd(n: nat, k: nat)
    ensures Numbers(n) + [] + NumbersAfter(n, k) == Numbers(n + k)
  {
  }

  /** A finished clause satisfies a row exactly when it says so. */
  lemma {:induction false} SaysIsSatisfies(clause: seq<Token>, params: seq<Value>, row: Row, b: bool)
    requires Says(clause, params, row, b)
    ensures Satisfies(clause, params, row) == Some(b)
  {
  }

  // ----- the conditions the builder appends

  lemma {:induction false} ComparisonCondition(c: Column, op: Token, params: seq<Value>, v: Value, row: Row, b: bool)
    requires !op.BETWEEN? && Compare(op, ColumnValue(row, c), v) == Some(b)
    ensures IsCondition([Col(c), op, Placeholder(|params| + 1)], params + [v], row, b)
  {
    SimpleComparison(c, op, |params| + 1, [], params + [v], row);
    assert [Col(c), op, Placeholder(|params| + 1)] + [] == [Col(c), op, Placeholder(|params| + 1)];
  }

  lemma {:induction false} BetweenCondition(c: Column, params: seq<Value>, lo: Value, hi: Value, row: Row, b: bool)
    requires InRange(lo, ColumnValue(row, c), hi) == Some(b)
    ensures IsCondition(Between(c, |params|), params + [lo, hi], row, b)
  {
    assert Between(c, |params|)[5..] == [];
  }

  function Between(c: Column, n: nat): seq<Token> {
    [Col(c), BETWEEN, Placeholder(n + 1), AND, Placeholder(n + 2)]
  }

  lemma {:induction false} BetweenNumbered(c: Column, n: nat)
    ensures Placeholders(Between(c, n)) == [n + 1, n + 2]
  {
    var a, b := [Col(c), BETWEEN] + [Placeholder(n + 1)] + [], [AND] + [Placeholder(n + 2)] + [];
    OnePlaceholder([Col(c), BETWEEN], n + 1, []);
    OnePlaceholder([AND], n + 2, []);
    PlaceholdersAdd(a, b);
    assert Between(c, n) == a + b;
  }

  function Keyset(n: nat): seq<Token> {
    [OPEN, Col(CreatedAt), LT, Placeholder(n + 1), OR,
     OPEN, Col(CreatedAt), EQ, Placeholder(n + 2), AND, Col(SeqNo), LT, Placeholder(n + 3), CLOSE, CLOSE]
  }

  lemma {:induction false} KeysetNumbered(n: nat)
    ensures Placeholders(Keyset(n)) == [n + 1, n + 2, n + 3]
  {
    var a := [OPEN, Col(CreatedAt), LT] + [Placeholder(n + 1)] + [];
    var b := [OR, OPEN, Col(CreatedAt), EQ] + [Placeholder(n + 2)] + [];
    var c := [AND, Col(SeqNo), LT] + [Placeholder(n + 3)] + [CLOSE, CLOSE];
    KeysetParts(n, a, b, c);
    hide Placeholders, Keyset;
    OnePlaceholder([OPEN, Col(CreatedAt), LT], n + 1, []);
    OnePlaceholder([OR, OPEN, Col(CreatedAt), EQ], n + 2, []);
    OnePlaceholder([AND, Col(SeqNo), LT], n + 3, [CLOSE, CLOSE]);
    PlaceholdersAdd(a + b, c);
    PlaceholdersAdd(a, b);
  }

  lemma {:induction false} KeysetParts(n: nat, a: seq<Token>, b: seq<Token>, c: seq<Token>)
    requires a == [OPEN, Col(CreatedAt), LT] + [Placeholder(n + 1)] + []
    requires b == [OR, OPEN, Col(CreatedAt), EQ] + [Placeholder(n + 2)] + []
    requires c == [AND, Col(SeqNo), LT] + [Placeholder(n + 3)] + [CLOSE, CLOSE]
    ensures Keyset(n) == a + b + c
  {
  }

  /** The parenthesised keyset condition reads as "past the cursor". */
  lemma {:induction false} KeysetCondition(params: seq<Value>, cursor: Cursor, row: Row)
    ensures IsCondition(Keyset(|params|), params + [Instant(cursor.createdAt), Instant(cursor.createdAt), Whole(cursor.seqNo)],
                        row, PastCursor(cursor, row))
  {
    var n := |params|;
    var all := params + [Instant(cursor.createdAt), Instant(cursor.createdAt), Whole(cursor.seqNo)];
    var inner := SameInstantText(n);
    var outer := [Col(CreatedAt), LT, Placeholder(n + 1), OR] + inner;
    var earlier := row.createdAt < cursor.createdAt;
    assert Keyset(n) == [OPEN] + outer;
    SameInstant(n, all, cursor, row);
    EarlierInstant(n, all, cursor, row, inner);
    hide ReadPrimary, ReadComparison, SameInstantText;
    AndIsPrimary(outer, all, row, earlier, [OR] + inner);
    OrIsMore(outer, all, row, earlier, inner, row.createdAt == cursor.createdAt && row.seqNo < cursor.seqNo, [CLOSE]);
    assert [CLOSE] == [CLOSE] + [];
    PrimaryIsGroup(outer, all, row, PastCursor(cursor, row), []);
  }

  lemma {:induction false} EarlierInstant(n: nat, all: seq<Value>, cursor: Cursor, row: Row, inner: seq<Token>)
    requires |all| >= n + 3 && all[n] == Instant(cursor.createdAt)
    ensures ReadPrimary([Col(CreatedAt), LT, Placeholder(n + 1), OR] + inner, all, row)
         == Some(Reading(row.createdAt < cursor.createdAt, [OR] + inner))
  {
    hide ReadPrimary;
    assert [Col(CreatedAt), LT, Placeholder(n + 1)] + ([OR] + inner) == [Col(CreatedAt), LT, Placeholder(n + 1), OR] + inner;
    SimpleComparison(CreatedAt, LT, n + 1, [OR] + inner, all, row);
  }

  /** ( created_at = $n+2 AND seq < $n+3 ) and the parenthesis that closes the condition */
  function SameInstantText(n: nat): seq<Token> {
    [OPEN, Col(CreatedAt), EQ, Placeholder(n + 2), AND, Col(SeqNo), LT, Placeholder(n + 3), CLOSE, CLOSE]
  }

  lemma {:induction false} SameInstant(n: nat, all: seq<Value>, cursor: Cursor, row: Row)
    requires |all| == n + 3 && all[n + 1] == Instant(cursor.createdAt) && all[n + 2] == Whole(cursor.seqNo)
    ensures ReadOr(SameInstantText(n), all, row)
         == Some(Reading(row.createdAt == cursor.createdAt && row.seqNo < cursor.seqNo, [CLOSE]))
  {
    var less := [Col(SeqNo), LT, Placeholder(n + 3), CLOSE, CLOSE];
    var equal := [Col(CreatedAt), EQ, Placeholder(n + 2), AND] + less;
    var same, lower := row.createdAt == cursor.createdAt, row.seqNo < cursor.seqNo;
    assert SameInstantText(n) == [OPEN] + equal;
    LowerSeq(n, all, cursor, row);
    EqualInstant(n, all, cursor, row, less);
    hide ReadPrimary, ReadComparison;
    assert [CLOSE, CLOSE] == [CLOSE] + [CLOSE];
    AndIsPrimary(less, all, row, lower, [CLOSE, CLOSE]);
    AndIsMore(equal, all, row, same, less, lower, [CLOSE, CLOSE]);
    OrIsAnd(equal, all, row, same && lower, [CLOSE, CLOSE]);
    PrimaryIsGroup(equal, all, row, same && lower, [CLOSE]);
    AndIsPrimary([OPEN] + equal, all, row, same && lower, [CLOSE]);
    OrIsAnd([OPEN] + equal, all, row, same && lower, [CLOSE]);
  }

  lemma {:induction false} LowerSeq(n: nat, all: seq<Value>, cursor: Cursor, row: Row)
    requires |all| == n + 3 && all[n + 2] == Whole(cursor.seqNo)
    ensures ReadPrimary([Col(SeqNo), LT, Placeholder(n + 3), CLOSE, CLOSE], all, row)
         == Some(Reading(row.seqNo < cursor.seqNo, [CLOSE, CLOSE]))
  {
    hide ReadPrimary;
    assert [Col(SeqNo), LT, Placeholder(n + 3)] + [CLOSE, CLOSE] == [Col(SeqNo), LT, Placeholder(n + 3), CLOSE, CLOSE];
    SimpleComparison(SeqNo, LT, n + 3, [CLOSE, CLOSE], all, row);
  }

  /** column op $k, followed by anything */
  lemma {:induction false} SimpleComparison(c: Column, op: Token, k: nat, rest: seq<Token>, params: seq<Value>,
                                            row: Row)
    requires !op.BETWEEN? && 1 <= k <= |params| && Compare(op, ColumnValue(row, c), params[k - 1]).Some?
    ensures ReadPrimary([Col(c), op, Placeholder(k)] + rest, params, row)
         == Some(Reading(Compare(op, ColumnValue(row, c), params[k - 1]).value, rest))
  {
    var text := [Col(c), op, Placeholder(k)] + rest;
    assert text[3..] == rest;
    hide Compare, ColumnValue;
    assert ReadPrimary(text, params, row) == ReadComparison(text, params, row);
  }

  lemma {:induction false} EqualInstant(n: nat, all: seq<Value>, cursor: Cursor, row: Row, less: seq<Token>)
    requires |all| == n + 3 && all[n + 1] == Instant(cursor.createdAt)
    ensures ReadPrimary([Col(CreatedAt), EQ, Placeholder(n + 2), AND] + less, all, row)
         == Some(Reading(row.createdAt == cursor.createdAt, [AND] + less))
  {
    hide ReadPrimary;
    assert [Col(CreatedAt), EQ, Placeholder(n + 2)] + ([AND] + less) == [Col(CreatedAt), EQ, Placeholder(n + 2), AND] + less;
    SimpleComparison(CreatedAt, EQ, n + 2, [AND] + less, all, row);
  }

  // ----- the source's builders

  /** params.push(v); appendCondition(`c op $n`) */
  method AppendComparison(clause: seq<Token>, params: seq<Value>, c: Column, op: Token, v: Value)
    returns (clause': seq<Token>, params': seq<Value>)
    requires Numbered(clause, params) && (op.EQ? || op.LT? || op.LE?)
    ensures Numbered(clause', params') && WHERE in clause'
    ensures forall row, b :: Says(clause, params, row, b) && Compare(op, ColumnValue(row, c), v).Some?
              ==> Says(clause', params', row, b && Compare(op, ColumnValue(row, c), v).value)
  {
    params' := params + [v];
    var condition := [Col(c), op, Placeholder(|params'|)];
    clause' := Append(clause, condition);
    forall row, b | Says(clause, params, row, b) && Compare(op, ColumnValue(row, c), v).Some?
      ensures Says(clause', params', row, b && Compare(op, ColumnValue(row, c), v).value)
    {
      ComparisonCondition(c, op, params, v, row, Compare(op, ColumnValue(row, c), v).value);
      AppendSays(clause, params, condition, [v], row, b, Compare(op, ColumnValue(row, c), v).value);
    }
    ComparisonNumbered(c, op, |params|);
    AppendNumbered(clause, params, condition, [v]);
  }

  /** params.push(lo, hi); appendCondition(`c BETWEEN $m AND $n`) */
  method AppendBetween(clause: seq<Token>, params: seq<Value>, c: Column, lo: Value, hi: Value)
    returns (clause': seq<Token>, params': seq<Value>)
    requires Numbered(clause, params)
    ensures Numbered(clause', params')
    ensures forall row, b :: Says(clause, params, row, b) && InRange(lo, ColumnValue(row, c), hi).Some?
              ==> Says(clause', params', row, b && InRange(lo, ColumnValue(row, c), hi).value)
  {
    params' := params + [lo, hi];
    var condition := [Col(c), BETWEEN, Placeholder(|params'| - 1), AND, Placeholder(|params'|)];
    clause' := Append(clause, condition);
    forall row, b | Says(clause, params, row, b) && InRange(lo, ColumnValue(row, c), hi).Some?
      ensures Says(clause', params', row, b && InRange(lo, ColumnValue(row, c), hi).value)
    {
      BetweenCondition(c, params, lo, hi, row, InRange(lo, ColumnValue(row, c), hi).value);
      AppendSays(clause, params, condition, [lo, hi], row, b, InRange(lo, ColumnValue(row, c), hi).value);
    }
    BetweenNumbered(c, |params|);
    AppendNumbered(clause, params, condition, [lo, hi]);
  }

  method BuildEventFilters(f: Filters, base: Statement) returns (r: Statement)
    requires Numbered(base.clause, base.params)
    ensures Numbered(r.clause, r.params)
    ensures forall row, b :: Says(base.clause, base.params, row, b) ==> Says(r.clause, r.params, row, b && FiltersHold(f, row))
  {
    hide Says, Numbered;
    var params, whereClause := base.params, base.clause;
    var requestedStatus := RequestedStatus(f);
    if requestedStatus.Some? {
      whereClause, params := AppendComparison(whereClause, params, EventType, EQ, Text(requestedStatus.value));
    }
    if f.amountRange.Some? {
      var range := f.amountRange.value;
      whereClause, params := AppendBetween(whereClause, params, AmountAsNumeric, Number(range.lo), Number(range.hi));
    }
    if f.dateRange.Some? {
      var range := f.dateRange.value;
      whereClause, params := AppendBetween(whereClause, params, LedgerClosedAt, Instant(range.lo), Instant(range.hi));
    }
    r := Statement(whereClause, params);
  }

  /** The page query: its clause, the placeholder after LIMIT, and all parameters. */
  datatype PageQuery = PageQuery(clause: seq<Token>, limit: nat, params: seq<Value>)

  lemma {:induction false} BaseSays(base: Base, row: Row)
    ensures Says(BaseClause(base).clause, BaseClause(base).params, row, BaseHolds(base, row))
  {
    match base
    case Borrower(a) => ComparisonCondition(Address, EQ, [], Text(a), row, BaseHolds(base, row));
    case Loan(n) => ComparisonCondition(LoanId, EQ, [], Whole(n), row, BaseHolds(base, row));
    case Recent =>
  }

  lemma {:induction false} BaseNumbered(base: Base)
    ensures Numbered(BaseClause(base).clause, BaseClause(base).params)
  {
    match base
    case Borrower(a) => ComparisonNumbered(Address, EQ, 0);
    case Loan(n) => ComparisonNumbered(LoanId, EQ, 0);
    case Recent =>
  }

  /** The statements every event endpoint sends: one page and the total of the snapshot. */
  method BuildQueries(base: Base, f: Filters, snapshot: int, cursor: Option<Cursor>, limit: int)
    returns (page: PageQuery, count: Statement)
    ensures Placeholders(page.clause + [Placeholder(page.limit)]) == Numbers(|page.params|)
    ensures Argument(page.params, page.limit) == Some(Whole(limit + 1))
    ensures forall row :: Satisfies(page.clause, page.params, row) == Some(OnPage(base, f, snapshot, cursor, row))
    ensures Numbered(count.clause, count.params)
    ensures forall row :: Satisfies(count.clause, count.params, row) == Some(InSnapshot(base, f, snapshot, row))
  {
    var whereClause, params := SnapshotStatement(base, f, snapshot);
    count := Statement(whereClause, params);
    ClauseReads(whereClause, params, row => InSnapshot(base, f, snapshot, row), []);
    assert params + [] == params;
    hide Numbered, Placeholders, Says, Satisfies, InSnapshot, PastCursor;
    whereClause, params := AppendKeyset(whereClause, params, cursor);
    forall row
      ensures Says(whereClause, params, row, OnPage(base, f, snapshot, cursor, row))
    {
      assert Says(count.clause, count.params, row, InSnapshot(base, f, snapshot, row));
    }
    page := PageQuery(whereClause, |params| + 1, params + [Whole(limit + 1)]);
    LimitNumbered(whereClause, params);
    ClauseReads(whereClause, params, row => OnPage(base, f, snapshot, cursor, row), [Whole(limit + 1)]);
  }

  /** The filters followed by the snapshot constraint: the whole count query, and the start of the page query. */
  method SnapshotStatement(base: Base, f: Filters, snapshot: int) returns (clause: seq<Token>, params: seq<Value>)
    ensures Numbered(clause, params) && WHERE in clause
    ensures forall row :: Says(clause, params, row, InSnapshot(base, f, snapshot, row))
  {
    BaseNumbered(base);
    hide Numbered, Says;
    var filters := BuildEventFilters(f, BaseClause(base));
    clause, params := AppendComparison(filters.clause, filters.params, SeqNo, LE, Whole(snapshot));
    forall row
      ensures Says(clause, params, row, InSnapshot(base, f, snapshot, row))
    {
      BaseSays(base, row);
      assert Says(filters.clause, filters.params, row, BaseHolds(base, row) && FiltersHold(f, row));
      assert Compare(LE, ColumnValue(row, SeqNo), Whole(snapshot)) == Some(row.seqNo <= snapshot);
    }
  }

  lemma {:induction false} ClauseReads(clause: seq<Token>, params: seq<Value>, p: Row -> bool, more: seq<Value>)
    requires forall row :: Says(clause, params, row, p(row))
    ensures forall row :: Satisfies(clause, params + more, row) == Some(p(row))
  {
    forall row
      ensures Satisfies(clause, params + more, row) == Some(p(row))
    {
      SaysKeeps(clause, params, more, row, p(row));
      SaysIsSatisfies(clause, params + more, row, p(row));
    }
  }

  method AppendKeyset(clause: seq<Token>, params: seq<Value>, cursor: Option<Cursor>)
    returns (clause': seq<Token>, params': seq<Value>)
    requires Numbered(clause, params) && WHERE in clause
    ensures Numbered(clause', params')
    ensures forall row, b :: Says(clause, params, row, b)
              ==> Says(clause', params', row, b && (cursor.Some? ==> PastCursor(cursor.value, row)))
  {
    clause', params' := clause, params;
    if cursor.Some? {
      var c := cursor.value;
      params' := params' + [Instant(c.createdAt)];
      params' := params' + [Instant(c.createdAt)];
      params' := params' + [Whole(c.seqNo)];
      var n := |params'|;
      clause' := clause + [AND]
        + [OPEN, Col(CreatedAt), LT, Placeholder(n - 2), OR,
           OPEN, Col(CreatedAt), EQ, Placeholder(n - 1), AND, Col(SeqNo), LT, Placeholder(n), CLOSE, CLOSE];
      ghost var added := [Instant(c.createdAt), Instant(c.createdAt), Whole(c.seqNo)];
      assert params' == params + added;
      assert clause' == Append(clause, Keyset(|params|));
      forall row, b | Says(clause, params, row, b)
        ensures Says(clause', params', row, b && PastCursor(c, row))
      {
        KeysetCondition(params, c, row);
        AppendSays(clause, params, Keyset(|params|), added, row, b, PastCursor(c, row));
      }
      KeysetNumbered(|params|);
      AppendNumbered(clause, params, Keyset(|params|), added);
    }
  }

  lemma {:induction false} ComparisonNumbered(c: Column, op: Token, n: nat)
    requires !op.Placeholder?
    ensures Placeholders([Col(c), op, Placeholder(n + 1)]) == [n + 1]
  {
    OnePlaceholder([Col(c), op], n + 1, []);
    assert [Col(c), op] + [Placeholder(n + 1)] + [] == [Col(c), op, Placeholder(n + 1)];
  }

  lemma {:induction false} NoPlaceholder(s: seq<Token>)
    requires forall i :: 0 <= i < |s| ==> !s[i].Placeholder?
    ensures Placeholders(s) == []
  {
    if s == [] {
    } else {
      NoPlaceholder(s[1..]);
    }
  }

  lemma {:induction false} OnePlaceholder(a: seq<Token>, n: nat, b: seq<Token>)
    requires forall i :: 0 <= i < |a| ==> !a[i].Placeholder?
    requires forall i :: 0 <= i < |b| ==> !b[i].Placeholder?
    ensures Placeholders(a + [Placeholder(n)] + b) == [n]
  {
    NoPlaceholder(a);
    NoPlaceholder(b);
    PlaceholdersAdd(a, [Placeholder(n)]);
    PlaceholdersAdd(a + [Placeholder(n)], b);
    assert [Placeholder(n)][1..] == [];
  }

  lemma {:induction false} LimitNumbered(clause: seq<Token>, params: seq<Value>)
    requires Numbered(clause, params)
    ensures Placeholders(clause + [Placeholder(|params| + 1)]) == Numbers(|params| + 1)
  {
    PlaceholdersAdd(clause, [Placeholder(|params| + 1)]);
    assert [Placeholder(|params| + 1)][1..] == [];
  }

  lemma {:induction false} SaysKeeps(clause: seq<Token>, params: seq<Value>, more: seq<Value>, row: Row, b: bool)
    requires Says(clause, params, row, b)
    ensures Says(clause, params + more, row, b)
  {
    if clause != [] {
      AndKeeps(clause[1..], params, more, row);
    }
  }
}
