/**
  Stage 2: grouping validated lines into transactions (`get_transactions` in
  ddot_utils.py). Lines are grouped into contiguous runs sharing the same
  20-character site key, and a run is cut again before every line whose
  payload starts with the database-table token "R=".
*/
module Transactions {
  import opened Text

  const SiteKeyLength: nat := 20
  const AgencyCodeLength: nat := 5
  const PayloadStart: nat := 21
  const DatabaseTableIdToken: string := "R="

  datatype Transaction = Transaction(
    agencyCode: string,
    siteNumber: string,
    keyValuePairs: string,
    lineNumbers: seq<int>)

  /** `line[0:20]` */
  function Key(line: string): string {
    Take(line, SiteKeyLength)
  }

  /** `line[21:]`: the character at index 20, the separating space, is dropped. */
  function Payload(line: string): string {
    Drop(line, PayloadStart)
  }

  /** The transaction built from a site key and the buffered payloads and line numbers. */
  function MakeTransaction(location: string, payloads: seq<string>, lineNumbers: seq<int>): Transaction {
    Transaction(
      Take(location, AgencyCodeLength),
      Slice(location, AgencyCodeLength, SiteKeyLength),
      Join(payloads, " "),
      lineNumbers)
  }

  /** The numbers a..b-1, in increasing order. */
  function Range(a: int, b: int): (r: seq<int>)
    ensures |r| == if a <= b then b - a else 0
    decreases b - a
  {
    if b <= a then [] else Range(a, b - 1) + [b - 1]
  }

  lemma {:induction false} RangeAt(a: int, b: int, i: int)
    requires 0 <= i < b - a
    ensures Range(a, b)[i] == a + i
    decreases b - a
  {
    if i < b - a - 1 {
      RangeAt(a, b - 1, i);
    }
  }

  lemma RangeLast(a: int, b: int)
    requires a < b
    ensures Range(a, b)[|Range(a, b)| - 1] == b - 1
  {
    RangeAt(a, b, b - a - 1);
  }

  lemma {:induction false} RangeConcat(a: int, b: int, c: int)
    requires a <= b <= c
    ensures Range(a, b) + Range(b, c) == Range(a, c)
    decreases c - b
  {
    if b < c {
      RangeConcat(a, b, c - 1);
      assert Range(a, b) + (Range(b, c - 1) + [c - 1]) == (Range(a, b) + Range(b, c - 1)) + [c - 1];
    }
  }

  /** The payloads of lines s..e-1, in order. */
  function Payloads(lines: seq<string>, s: nat, e: nat): (payloads: seq<string>)
    requires s <= e <= |lines|
    ensures |payloads| == e - s
    decreases e
  {
    if e == s then [] else Payloads(lines, s, e - 1) + [Payload(lines[e - 1])]
  }

  /**
    `DATABASE_TABLE_ID_TOKEN == payload[0:2]`: the payload begins with the
    database-table token.
  */
  predicate OpensTable(payload: string) {
    2 <= |payload| && payload[0] == 'R' && payload[1] == '='
  }

  lemma OpensTableIsToken(payload: string)
    ensures OpensTable(payload) <==> Take(payload, |DatabaseTableIdToken|) == DatabaseTableIdToken
  {
    if 2 <= |payload| {
      assert Take(payload, 2) == [payload[0], payload[1]];
    }
  }

  /** Whether a new transaction begins at index m of a non-empty run of lines. */
  predicate Boundary(lines: seq<string>, m: nat)
    requires 0 < m < |lines|
  {
    Key(lines[m]) != Key(lines[m - 1]) || OpensTable(Payload(lines[m]))
  }

  predicate IsStart(lines: seq<string>, m: nat)
    requires m < |lines|
  {
    m == 0 || Boundary(lines, m)
  }

  /** The transaction made of lines s..e-1. */
  function Span(lines: seq<string>, s: nat, e: nat): Transaction
    requires s < e <= |lines|
  {
    MakeTransaction(Key(lines[s]), Payloads(lines, s, e), Range(s + 2, e + 2))
  }

  lemma SpanLineNumbers(lines: seq<string>, s: nat, e: nat)
    requires s < e <= |lines|
    ensures Span(lines, s, e).lineNumbers == Range(s + 2, e + 2)
  {
  }

  /** No line strictly between s and e begins a new transaction. */
  predicate NoBoundaryIn(lines: seq<string>, s: nat, e: nat)
    requires e <= |lines|
  {
    forall m :: s < m < e ==> !Boundary(lines, m)
  }

  /**
    The index spans [start, end) of the transactions of lines[s..], given
    that the current transaction has gathered lines s..j-1 so far: it is
    closed before line j when j is a boundary, and at the end of the lines.
  */
  function CutsFrom(lines: seq<string>, s: nat, j: nat): (spans: seq<(int, int)>)
    requires s < j <= |lines|
    ensures spans != []
    decreases |lines| - j
  {
    if j == |lines| then [(s, j)]
    else if Boundary(lines, j) then [(s, j)] + CutsFrom(lines, j, j + 1)
    else CutsFrom(lines, s, j + 1)
  }

  /** The index spans of the transactions of lines[g..]. */
  function CutsAt(lines: seq<string>, g: nat): seq<(int, int)>
    requires g <= |lines|
  {
    if g == |lines| then [] else CutsFrom(lines, g, g + 1)
  }

  /** Spans of existing lines, each non-empty. */
  predicate ValidSpans(lines: seq<string>, spans: seq<(int, int)>) {
    forall k :: 0 <= k < |spans| ==> 0 <= spans[k].0 < spans[k].1 <= |lines|
  }

  /** The transactions made of the given spans of lines, in order. */
  function Build(lines: seq<string>, spans: seq<(int, int)>): (ts: seq<Transaction>)
    requires ValidSpans(lines, spans)
  {
    seq(|spans|, k requires 0 <= k < |spans| => Span(lines, spans[k].0, spans[k].1))
  }

  /** The transactions `get_transactions` returns, as a reference definition. */
  function Transactions(lines: seq<string>): seq<Transaction> {
    CutsValid(lines);
    Build(lines, CutsAt(lines, 0))
  }

  /**
    The k-th span of lines[s..] lies inside the lines, starts a transaction
    and holds no boundary; the first starts at s, and each ends where the
    next begins.
  */
  lemma {:induction false} CutAt(lines: seq<string>, s: nat, j: nat, k: nat)
    requires s < j <= |lines|
    requires IsStart(lines, s) && NoBoundaryIn(lines, s, j)
    requires k < |CutsFrom(lines, s, j)|
    ensures var c := CutsFrom(lines, s, j);
      && 0 <= c[k].0 < c[k].1 <= |lines|
      && IsStart(lines, c[k].0) && NoBoundaryIn(lines, c[k].0, c[k].1)
      && (k == 0 ==> c[k].0 == s)
      && (k + 1 < |c| ==> c[k].1 == c[k + 1].0)
    decreases |lines| - j
  {
    if j == |lines| {
    } else if Boundary(lines, j) {
      var rest := CutsFrom(lines, j, j + 1);
      assert CutsFrom(lines, s, j) == [(s, j)] + rest;
      if k == 0 {
        if 1 < |CutsFrom(lines, s, j)| {
          CutAt(lines, j, j + 1, 0);
        }
      } else {
        CutAt(lines, j, j + 1, k - 1);
        if k + 1 < |CutsFrom(lines, s, j)| {
          CutAt(lines, j, j + 1, k);
        }
      }
    } else {
      assert NoBoundaryIn(lines, s, j + 1);
      CutAt(lines, s, j + 1, k);
    }
  }

  lemma CutsValid(lines: seq<string>)
    ensures ValidSpans(lines, CutsAt(lines, 0))
  {
    forall k | 0 <= k < |CutsAt(lines, 0)|
      ensures 0 <= CutsAt(lines, 0)[k].0 < CutsAt(lines, 0)[k].1 <= |lines|
    {
      CutAt(lines, 0, 1, k);
    }
  }

  /** All line numbers of a list of transactions, in order. */
  function AllLineNumbers(ts: seq<Transaction>): seq<int>
    decreases |ts|
  {
    if ts == [] then [] else ts[0].lineNumbers + AllLineNumbers(ts[1..])
  }

  /** The line numbers the given spans cover, in order. */
  function SpanNumbers(spans: seq<(int, int)>): seq<int>
    decreases |spans|
  {
    if spans == [] then [] else Range(spans[0].0 + 2, spans[0].1 + 2) + SpanNumbers(spans[1..])
  }

  /** Transactions whose line numbers are those of the given spans, one by one. */
  lemma {:induction false} NumbersOfSpans(ts: seq<Transaction>, spans: seq<(int, int)>)
    requires |ts| == |spans|
    requires forall k :: 0 <= k < |ts| ==> ts[k].lineNumbers == Range(spans[k].0 + 2, spans[k].1 + 2)
    ensures AllLineNumbers(ts) == SpanNumbers(spans)
    decreases |ts|
  {
    if ts != [] {
      assert forall k :: 0 <= k < |ts| - 1 ==> ts[1..][k] == ts[k + 1] && spans[1..][k] == spans[k + 1];
      NumbersOfSpans(ts[1..], spans[1..]);
    }
  }

  lemma SpanNumbersCons(s: int, e: int, rest: seq<(int, int)>)
    ensures SpanNumbers([(s, e)] + rest) == Range(s + 2, e + 2) + SpanNumbers(rest)
  {
    assert ([(s, e)] + rest)[1..] == rest;
  }

  /** The spans of lines[s..] cover line numbers s + 2 .. |lines| + 1, in order. */
  lemma {:induction false} CutNumbers(lines: seq<string>, s: nat, j: nat)
    requires s < j <= |lines|
    ensures SpanNumbers(CutsFrom(lines, s, j)) == Range(s + 2, |lines| + 2)
    decreases |lines| - j
  {
    if j == |lines| {
      SpanNumbersCons(s, j, []);
    } else if Boundary(lines, j) {
      calc {
        SpanNumbers(CutsFrom(lines, s, j));
        SpanNumbers([(s, j)] + CutsFrom(lines, j, j + 1));
        { SpanNumbersCons(s, j, CutsFrom(lines, j, j + 1)); }
        Range(s + 2, j + 2) + SpanNumbers(CutsFrom(lines, j, j + 1));
        { CutNumbers(lines, j, j + 1); }
        Range(s + 2, j + 2) + Range(j + 2, |lines| + 2);
        { RangeConcat(s + 2, j + 2, |lines| + 2); }
        Range(s + 2, |lines| + 2);
      }
    } else {
      CutNumbers(lines, s, j + 1);
    }
  }

  /**
    A transaction t of the given lines is well grouped when its line numbers
    are those of a run of consecutive existing lines that begins at the first
    line or at a boundary and holds no other boundary; all its lines share
    one site key, split into agency code (5 characters) and site number; and
    its payload is its lines' payloads joined by single spaces.
  */
  ghost predicate WellGrouped(lines: seq<string>, t: Transaction) {
    && t.lineNumbers != []
    && 2 <= t.lineNumbers[0]
    && var first: nat := t.lineNumbers[0] - 2;
    && var end: nat := first + |t.lineNumbers|;
    && end <= |lines|
    && t.lineNumbers == Range(first + 2, end + 2)
    && IsStart(lines, first)
    && (forall m :: first < m < end ==> !Boundary(lines, m))
    && (forall m :: first <= m < end ==> Key(lines[m]) == Key(lines[first]))
    && t.agencyCode == Take(Key(lines[first]), AgencyCodeLength)
    && t.siteNumber == Slice(Key(lines[first]), AgencyCodeLength, SiteKeyLength)
    && t.keyValuePairs == Join(Payloads(lines, first, end), " ")
  }

  /** Lines strictly inside a transaction share the key of its first line. */
  lemma {:induction false} KeysConstant(lines: seq<string>, s: nat, e: nat)
    requires s < e <= |lines|
    requires forall m :: s < m < e ==> !Boundary(lines, m)
    ensures forall m :: s <= m < e ==> Key(lines[m]) == Key(lines[s])
    decreases e - s
  {
    if e - s > 1 {
      KeysConstant(lines, s, e - 1);
      assert !Boundary(lines, e - 1);
    }
  }

  lemma SpanWellGrouped(lines: seq<string>, s: nat, e: nat)
    requires s < e <= |lines|
    requires IsStart(lines, s) && NoBoundaryIn(lines, s, e)
    ensures WellGrouped(lines, Span(lines, s, e))
  {
    KeysConstant(lines, s, e);
    SpanLineNumbers(lines, s, e);
    RangeAt(s + 2, e + 2, 0);
  }


  /**
    Grouping covers every line exactly once and in order: the transactions'
    line numbers, concatenated, are 2, 3, ..., |lines| + 1; every transaction
    is well grouped; and there are no transactions exactly when there are no
    lines.
  */
  lemma TransactionsPartition(lines: seq<string>)
    ensures AllLineNumbers(Transactions(lines)) == Range(2, |lines| + 2)
    ensures forall k :: 0 <= k < |Transactions(lines)| ==> WellGrouped(lines, Transactions(lines)[k])
    ensures Transactions(lines) == [] <==> lines == []
  {
    var spans := CutsAt(lines, 0);
    var ts := Transactions(lines);
    forall k | 0 <= k < |ts|
      ensures ts[k].lineNumbers == Range(spans[k].0 + 2, spans[k].1 + 2)
    {
      TransactionNumbers(lines, k);
    }
    NumbersOfSpans(ts, spans);
    if lines != [] {
      CutNumbers(lines, 0, 1);
    }
    forall k | 0 <= k < |ts| ensures WellGrouped(lines, ts[k]) {
      TransactionWellGrouped(lines, k);
    }
  }

  lemma TransactionWellGrouped(lines: seq<string>, k: nat)
    requires k < |Transactions(lines)|
    ensures WellGrouped(lines, Transactions(lines)[k])
  {
    var spans := CutsAt(lines, 0);
    CutAt(lines, 0, 1, k);
    SpanWellGrouped(lines, spans[k].0, spans[k].1);
  }

  /** The line numbers of the k-th transaction are those of the k-th span. */
  lemma TransactionNumbers(lines: seq<string>, k: nat)
    requires k < |Transactions(lines)|
    ensures Transactions(lines)[k].lineNumbers == Range(CutsAt(lines, 0)[k].0 + 2, CutsAt(lines, 0)[k].1 + 2)
  {
    CutAt(lines, 0, 1, k);
    SpanLineNumbers(lines, CutsAt(lines, 0)[k].0, CutsAt(lines, 0)[k].1);
  }

  /** Consecutive spans meet at a boundary. */
  lemma CutsMeet(lines: seq<string>, k: nat)
    requires k + 1 < |CutsAt(lines, 0)|
    ensures var spans := CutsAt(lines, 0);
      0 <= spans[k].0 < spans[k].1 == spans[k + 1].0 < spans[k + 1].1 <= |lines| && Boundary(lines, spans[k].1)
  {
    CutAt(lines, 0, 1, k);
    CutAt(lines, 0, 1, k + 1);
  }

  /**
    Consecutive transactions continue each other's line numbers and meet at
    a boundary: the first line of the later one changes the site key or has
    a payload starting with "R=".
  */
  lemma TransactionsMeetAtBoundaries(lines: seq<string>, k: nat)
    requires k + 1 < |Transactions(lines)|
    ensures var ts := Transactions(lines);
      && ts[k].lineNumbers != [] && ts[k + 1].lineNumbers != []
      && ts[k + 1].lineNumbers[0] == ts[k].lineNumbers[|ts[k].lineNumbers| - 1] + 1
      && 3 <= ts[k + 1].lineNumbers[0] < |lines| + 2
      && Boundary(lines, ts[k + 1].lineNumbers[0] - 2)
  {
    var ts, spans := Transactions(lines), CutsAt(lines, 0);
    CutsMeet(lines, k);
    TransactionNumbers(lines, k);
    TransactionNumbers(lines, k + 1);
    var b := spans[k].1;
    RangeLast(spans[k].0 + 2, b + 2);
    RangeAt(b + 2, spans[k + 1].1 + 2, 0);
    assert ts[k].lineNumbers[|ts[k].lineNumbers| - 1] == b + 1;
    assert ts[k + 1].lineNumbers == Range(b + 2, spans[k + 1].1 + 2);
    assert ts[k + 1].lineNumbers[0] == b + 2;
  }

  lemma {:induction false} BuildSnoc(lines: seq<string>, done: seq<(int, int)>, s: nat, j: nat)
    requires ValidSpans(lines, done) && s < j <= |lines|
    ensures ValidSpans(lines, done + [(s, j)])
    ensures Build(lines, done + [(s, j)]) == Build(lines, done) + [Span(lines, s, j)]
  {
    var spans := done + [(s, j)];
    assert forall k :: 0 <= k < |done| ==> spans[k] == done[k];
    assert spans[|done|] == (s, j);
  }

  /**
    The state of the loop over one group: the buffers hold the line numbers
    and payloads of lines s..j-1, all on the site key location; result holds
    the transactions of the spans done, and those followed by the spans of
    lines[s..] are whole.
  */
  ghost predicate Gathering(lines: seq<string>, s: int, j: int, location: string,
                            lineNumbers: seq<int>, keyValuePairs: seq<string>,
                            result: seq<Transaction>, done: seq<(int, int)>, whole: seq<(int, int)>)
  {
    && 0 <= s < j <= |lines|
    && Key(lines[s]) == location && Key(lines[j - 1]) == location
    && lineNumbers == Range(s + 2, j + 2)
    && keyValuePairs == Payloads(lines, s, j)
    && ValidSpans(lines, done) && result == Build(lines, done)
    && whole == done + CutsFrom(lines, s, j)
  }

  lemma GatherFirst(lines: seq<string>, g: nat, result: seq<Transaction>, done: seq<(int, int)>, whole: seq<(int, int)>)
    requires g < |lines|
    requires ValidSpans(lines, done) && result == Build(lines, done)
    requires whole == done + CutsAt(lines, g)
    ensures Gathering(lines, g, g + 1, Key(lines[g]), [g + 2], [Payload(lines[g])], result, done, whole)
  {
    assert Range(g + 2, g + 3) == Range(g + 2, g + 2) + [g + 2];
  }

  /** One step of the loop over a group, taking line j. */
  lemma GatherStep(lines: seq<string>, s: int, j: int, location: string,
                   lineNumbers: seq<int>, keyValuePairs: seq<string>,
                   result: seq<Transaction>, done: seq<(int, int)>, whole: seq<(int, int)>)
    requires Gathering(lines, s, j, location, lineNumbers, keyValuePairs, result, done, whole)
    requires j < |lines| && Key(lines[j]) == location
    ensures var cut := OpensTable(Payload(lines[j])) && keyValuePairs != [];
      Gathering(lines, if cut then j else s, j + 1, location,
                (if cut then [] else lineNumbers) + [j + 2],
                (if cut then [] else keyValuePairs) + [Payload(lines[j])],
                if cut then result + [MakeTransaction(location, keyValuePairs, lineNumbers)] else result,
                if cut then done + [(s, j)] else done,
                whole)
  {
    if OpensTable(Payload(lines[j])) {
      var rest := CutsFrom(lines, j, j + 1);
      assert MakeTransaction(location, keyValuePairs, lineNumbers) == Span(lines, s, j);
      BuildSnoc(lines, done, s, j);
      assert CutsFrom(lines, s, j) == [(s, j)] + rest;
      assert done + ([(s, j)] + rest) == (done + [(s, j)]) + rest;
      assert Range(j + 2, j + 3) == Range(j + 2, j + 2) + [j + 2];
    } else {
      assert CutsFrom(lines, s, j) == CutsFrom(lines, s, j + 1);
    }
  }

  /** Closing the last transaction of a group, after its last line j - 1. */
  lemma GatherLast(lines: seq<string>, s: int, j: int, location: string,
                   lineNumbers: seq<int>, keyValuePairs: seq<string>,
                   result: seq<Transaction>, done: seq<(int, int)>, whole: seq<(int, int)>)
    requires Gathering(lines, s, j, location, lineNumbers, keyValuePairs, result, done, whole)
    requires j == |lines| || Key(lines[j]) != location
    ensures ValidSpans(lines, done + [(s, j)])
    ensures result + [MakeTransaction(location, keyValuePairs, lineNumbers)] == Build(lines, done + [(s, j)])
    ensures whole == (done + [(s, j)]) + CutsAt(lines, j)
  {
    assert MakeTransaction(location, keyValuePairs, lineNumbers) == Span(lines, s, j);
    BuildSnoc(lines, done, s, j);
    assert CutsFrom(lines, s, j) == [(s, j)] + CutsAt(lines, j);
    assert done + ([(s, j)] + CutsAt(lines, j)) == (done + [(s, j)]) + CutsAt(lines, j);
  }

  /** Lines g..j-1 all have the site key location. */
  predicate SameKey(lines: seq<string>, g: nat, j: nat, location: string)
    requires g <= j <= |lines|
  {
    forall m :: g <= m < j ==> Key(lines[m]) == location
  }

  lemma SameKeyStep(lines: seq<string>, g: nat, j: nat, location: string)
    requires g <= j < |lines|
    requires SameKey(lines, g, j, location) && Key(lines[j]) == location
    ensures SameKey(lines, g, j + 1, location)
  {
  }

  /**
    One `itertools.groupby` group: the run of lines sharing the site key of
    line g, appended to result as one or more transactions. The spans done
    so far and those of lines[g..] make up whole; on return the same holds
    of lines[j..], where j ends the run.
  */
  method AppendGroup(lines: seq<string>, g: nat, result: seq<Transaction>,
                     ghost done: seq<(int, int)>, ghost whole: seq<(int, int)>)
    returns (result': seq<Transaction>, j: nat, ghost done': seq<(int, int)>)
    requires g < |lines|
    requires ValidSpans(lines, done) && result == Build(lines, done)
    requires whole == done + CutsAt(lines, g)
    ensures g < j <= |lines|
    ensures SameKey(lines, g, j, Key(lines[g]))
    ensures j < |lines| ==> Key(lines[j]) != Key(lines[j - 1])
    ensures ValidSpans(lines, done') && result' == Build(lines, done')
    ensures whole == done' + CutsAt(lines, j)
  {
    // the first line cannot start a new transaction (the buffers are still
    // empty), so it is taken before the loop over the rest of the run
    var location := Key(lines[g]);
    var lineNumbers: seq<int> := [g + 2];
    var keyValuePairs: seq<string> := [Payload(lines[g])];
    ghost var s := g;
    result', done' := result, done;
    j := g + 1;
    GatherFirst(lines, g, result, done, whole);
    while j < |lines| && Key(lines[j]) == location
      invariant g < j
      invariant Gathering(lines, s, j, location, lineNumbers, keyValuePairs, result', done', whole)
      invariant SameKey(lines, g, j, location)
      decreases |lines| - j
    {
      GatherStep(lines, s, j, location, lineNumbers, keyValuePairs, result', done', whole);
      SameKeyStep(lines, g, j, location);
      var payload := Payload(lines[j]);
      if OpensTable(payload) && keyValuePairs != [] {
        result' := result' + [MakeTransaction(location, keyValuePairs, lineNumbers)];
        done' := done' + [(s, j)];
        lineNumbers := [];
        keyValuePairs := [];
        s := j;
      }
      keyValuePairs := keyValuePairs + [payload];
      lineNumbers := lineNumbers + [j + 2];
      j := j + 1;
    }
    GatherLast(lines, s, j, location, lineNumbers, keyValuePairs, result', done', whole);
    result' := result' + [MakeTransaction(location, keyValuePairs, lineNumbers)];
    done' := done' + [(s, j)];
  }

  /** `get_transactions` */
  method GetTransactions(lines: seq<string>) returns (result: seq<Transaction>)
    ensures result == Transactions(lines)
  {
    CutsValid(lines);
    ghost var whole := CutsAt(lines, 0);
    ghost var done: seq<(int, int)> := [];
    result := [];
    var g := 0;
    while g < |lines|
      invariant 0 <= g <= |lines|
      invariant ValidSpans(lines, done) && result == Build(lines, done)
      invariant whole == done + CutsAt(lines, g)
      decreases |lines| - g
    {
      result, g, done := AppendGroup(lines, g, result, done, whole);
    }
    assert done == whole;
  }
}
