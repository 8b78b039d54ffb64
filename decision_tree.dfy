/** The split machinery of a CART-style decision-tree learner: a question
    over one column, the two-way partition it induces, the label histogram,
    Gini impurity, information gain and the exhaustive search for the best
    split.  Impurity is computed exactly, in `real`. */
module DecisionTree {

  /** A feature or label value: a Python `int` or a `str`. */
  datatype Value = Int(i: int) | Str(s: string)

  /** One instance: its features, then its label in the last position. */
  type Row = r: seq<Value> | |r| > 0 witness [Str("")]

  datatype Option<+T> = None | Some(value: T)

  /** The Python exceptions this code can raise. */
  datatype Error = IndexError | TypeError

  datatype Result<+T> = Success(value: T) | Failure(error: Error)

  /** `Question(column, value, headers)`; the headers only serve `__repr__`. */
  datatype Question = Question(column: int, value: Value, headers: Option<seq<string>>)

  predicate IsNumeric(v: Value) {
    v.Int?
  }

  function Label(row: Row): Value {
    row[|row| - 1]
  }

  /** Python's `xs[i]` on a list of length `len`: negative indices count from
      the end; anything else outside the list raises IndexError. */
  function PyIndex(len: nat, i: int): (r: Option<nat>)
    ensures r.Some? <==> -(len as int) <= i < len
    ensures r.Some? ==> r.value < len && (r.value == i || r.value == len + i)
  {
    if 0 <= i < len then Some(i)
    else if -(len as int) <= i < 0 then Some(len + i)
    else None
  }

  /** `Question.match`: the example's own value decides between a threshold
      test and an equality test. */
  function Match(q: Question, example: Row): Result<bool> {
    match PyIndex(|example|, q.column)
    case None => Failure(IndexError)
    case Some(k) =>
      var v := example[k];
      if IsNumeric(v) then
        (if q.value.Int? then Success(v.i >= q.value.i) else Failure(TypeError))
      else
        Success(v == q.value)
  }

  /** The meaning of `match`: only the example's value at the column matters;
      a numeric one is compared `>=` with the threshold (and a string
      threshold raises TypeError), a string one is compared for equality. */
  lemma MatchSemantics(q: Question, a: Row, b: Row)
    requires 0 <= q.column < |a| && 0 <= q.column < |b|
    ensures a[q.column] == b[q.column] ==> Match(q, a) == Match(q, b)
    ensures a[q.column].Int? ==>
      (Match(q, a).Success? <==> q.value.Int?) &&
      (q.value.Int? ==> (Match(q, a).value <==> a[q.column].i >= q.value.i))
    ensures a[q.column].Str? ==> Match(q, a) == Success(a[q.column] == q.value)
    ensures q.value.Int? && a[q.column].Int? && b[q.column].Int? &&
            a[q.column].i <= b[q.column].i && Match(q, a) == Success(true)
            ==> Match(q, b) == Success(true)
  {
  }

  /** A column past the end of the row raises IndexError. */
  lemma MatchOutOfRange(q: Question, a: Row)
    requires q.column >= |a| || q.column < -|a|
    ensures Match(q, a) == Failure(IndexError)
  {
  }

  // ---------------------------------------------------------------------
  // Rendering a question

  function DigitChar(d: nat): (c: char)
    requires d < 10
    ensures '0' <= c <= '9'
  {
    "0123456789"[d]
  }

  /** The decimal digits of `n`, as Python's `str` writes them. */
  function NatToString(n: nat): (s: string)
    ensures |s| > 0 && forall k :: 0 <= k < |s| ==> '0' <= s[k] <= '9'
  {
    if n < 10 then [DigitChar(n)] else NatToString(n / 10) + [DigitChar(n % 10)]
  }

  /** `str(i)` for a Python int. */
  function IntToString(i: int): string {
    if i < 0 then "-" + NatToString(-i) else NatToString(i)
  }

  /** Reads back a string of decimal digits: the partner of NatToString. */
  function ParseNat(s: string): nat
    requires forall k :: 0 <= k < |s| ==> '0' <= s[k] <= '9'
  {
    if s == [] then 0 else ParseNat(s[..|s| - 1]) * 10 + (s[|s| - 1] as int - '0' as int)
  }

  function ParseInt(s: string): int
    requires s != [] && (s[0] == '-' ==> |s| > 1)
    requires forall k :: (if s[0] == '-' then 1 else 0) <= k < |s| ==> '0' <= s[k] <= '9'
  {
    if s[0] == '-' then -(ParseNat(s[1..]) as int) else ParseNat(s)
  }

  lemma {:induction false} NatToStringRoundTrip(n: nat)
    ensures ParseNat(NatToString(n)) == n
  {
    if n >= 10 {
      NatToStringRoundTrip(n / 10);
      var s := NatToString(n);
      assert s[..|s| - 1] == NatToString(n / 10);
    }
  }

  /** The number in a rendered question reads back as the number itself. */
  lemma IntToStringRoundTrip(i: int)
    ensures IntToString(i) != [] && (IntToString(i)[0] == '-' <==> i < 0)
    ensures ParseInt(IntToString(i)) == i
  {
    NatToStringRoundTrip(if i < 0 then -i else i);
    if i < 0 {
      assert IntToString(i)[1..] == NatToString(-i);
    }
  }

  /** The f-string text of a value. */
  function ValueText(v: Value): string {
    match v
    case Int(i) => IntToString(i)
    case Str(s) => s
  }

  /** `header_name` in `__repr__`: `headers[column]` when there are headers,
      otherwise the literal text `headers[<column>]`. */
  function HeaderName(q: Question): Result<string> {
    match q.headers
    case None => Success("headers[" + IntToString(q.column) + "]")
    case Some(h) =>
      match PyIndex(|h|, q.column)
      case None => Failure(IndexError)
      case Some(k) => Success(h[k])
  }

  function Condition(q: Question): string {
    if IsNumeric(q.value) then ">=" else "=="
  }

  /** `Question.__repr__`: `Is <name> <op> <value>?`. */
  function Repr(q: Question): (r: Result<string>)
    ensures r.Failure? <==> q.headers.Some? && !(-|q.headers.value| <= q.column < |q.headers.value|)
    ensures r.Success? ==>
      r.value == "Is " + HeaderName(q).value + (if q.value.Int? then " >= " else " == ") + ValueText(q.value) + "?"
  {
    match HeaderName(q)
    case Failure(e) => Failure(e)
    case Success(name) => Success("Is " + name + " " + Condition(q) + " " + ValueText(q.value) + "?")
  }

  const FruitHeaders: seq<string> := ["color", "diameter", "label"]

  /** The rendering and the match the unit tests expect of Question(0, 'Green'). */
  lemma GreenQuestion()
    ensures Repr(Question(0, Str("Green"), Some(FruitHeaders))) == Success("Is color == Green?")
    ensures Match(Question(0, Str("Green"), Some(FruitHeaders)), [Str("Green"), Int(3), Str("Apple")]) == Success(true)
  {
    var q := Question(0, Str("Green"), Some(FruitHeaders));
    assert HeaderName(q) == Success("color");
    assert ValueText(q.value) == "Green";
    assert "Is " + "color" + " == " + "Green" + "?" == "Is color == Green?";
  }

  // ---------------------------------------------------------------------
  // partition

  /** The pair of lists `partition` returns, or the exception raised by the
      first row the question cannot answer. */
  function PartitionOf(rows: seq<Row>, q: Question): Result<(seq<Row>, seq<Row>)> {
    if rows == [] then Success(([], []))
    else
      var before := PartitionOf(rows[..|rows| - 1], q);
      var last := rows[|rows| - 1];
      if before.Failure? then before
      else match Match(q, last)
        case Failure(e) => Failure(e)
        case Success(b) =>
          if b then Success((before.value.0 + [last], before.value.1))
          else Success((before.value.0, before.value.1 + [last]))
  }

  predicate Answerable(rows: seq<Row>, q: Question) {
    forall k :: 0 <= k < |rows| ==> Match(q, rows[k]).Success?
  }

  /** `partition` fails exactly when some row cannot be answered. */
  lemma {:induction false} PartitionSucceeds(rows: seq<Row>, q: Question)
    ensures PartitionOf(rows, q).Success? <==> Answerable(rows, q)
  {
    if rows != [] {
      var init := rows[..|rows| - 1];
      PartitionSucceeds(init, q);
      assert forall k :: 0 <= k < |init| ==> init[k] == rows[k];
    }
  }

  /** Every row lands in exactly one of the two lists: the matching rows in
      the first, the others in the second (their order is `PartitionKeeps`). */
  lemma {:induction false} PartitionContents(rows: seq<Row>, q: Question)
    requires PartitionOf(rows, q).Success?
    ensures var (trues, falses) := PartitionOf(rows, q).value;
      && (forall k :: 0 <= k < |trues| ==> Match(q, trues[k]) == Success(true))
      && (forall k :: 0 <= k < |falses| ==> Match(q, falses[k]) == Success(false))
      && multiset(trues) + multiset(falses) == multiset(rows)
      && |trues| + |falses| == |rows|
  {
    if rows != [] {
      var init := rows[..|rows| - 1];
      var last := rows[|rows| - 1];
      assert PartitionOf(init, q).Success?;
      PartitionContents(init, q);
      var (t0, f0) := PartitionOf(init, q).value;
      assert rows == init + [last];
      if Match(q, last).value {
        PartitionStep(q, t0, f0, last, true, init);
      } else {
        PartitionStep(q, f0, t0, last, false, init);
      }
    }
  }

  /** The rows whose answer is `b`, in their original order: a filter by
      head recursion, independent of the row-by-row appends. */
  function Keep(rows: seq<Row>, q: Question, b: bool): seq<Row> {
    if rows == [] then []
    else (if Match(q, rows[0]) == Success(b) then [rows[0]] else []) + Keep(rows[1..], q, b)
  }

  /** Filtering a list with one more row at the end. */
  lemma {:induction false} KeepSnoc(rows: seq<Row>, x: Row, q: Question, b: bool)
    ensures Keep(rows + [x], q, b) == Keep(rows, q, b) + (if Match(q, x) == Success(b) then [x] else [])
  {
    if rows != [] {
      assert (rows + [x])[1..] == rows[1..] + [x];
      KeepSnoc(rows[1..], x, q, b);
    }
  }

  /** When every row can be answered, `partition` is the two order-preserving
      filters: the matching rows in their original relative order, and the
      others in theirs. */
  lemma {:induction false} PartitionKeeps(rows: seq<Row>, q: Question)
    requires Answerable(rows, q)
    ensures PartitionOf(rows, q) == Success((Keep(rows, q, true), Keep(rows, q, false)))
  {
    if rows != [] {
      var init := rows[..|rows| - 1];
      var last := rows[|rows| - 1];
      assert forall k :: 0 <= k < |init| ==> init[k] == rows[k];
      PartitionKeeps(init, q);
      assert rows == init + [last];
      KeepSnoc(init, last, q, true);
      KeepSnoc(init, last, q, false);
      var t, f := Keep(init, q, true), Keep(init, q, false);
      if Match(q, last) == Success(true) {
        assert PartitionOf(rows, q) == Success((t + [last], f));
        assert Keep(rows, q, false) == f + [] == f;
      } else {
        assert Match(q, last) == Success(false);
        assert PartitionOf(rows, q) == Success((t, f + [last]));
        assert Keep(rows, q, true) == t + [] == t;
      }
    }
  }

  /** Appending one answered row to one side of a partition of `init`. */
  lemma PartitionStep(q: Question, side: seq<Row>, other: seq<Row>, last: Row, b: bool, init: seq<Row>)
    requires forall k :: 0 <= k < |side| ==> Match(q, side[k]) == Success(b)
    requires Match(q, last) == Success(b)
    requires multiset(side) + multiset(other) == multiset(init) && |side| + |other| == |init|
    ensures forall k :: 0 <= k < |side + [last]| ==> Match(q, (side + [last])[k]) == Success(b)
    ensures multiset(side + [last]) + multiset(other) == multiset(init + [last])
    ensures |side + [last]| + |other| == |init + [last]|
  {
  }

  /** A failing `partition` raises the exception of its first unanswerable row. */
  lemma {:induction false} PartitionFailure(rows: seq<Row>, q: Question)
    requires PartitionOf(rows, q).Failure?
    ensures exists k ::
      (0 <= k < |rows| && Answerable(rows[..k], q) && Match(q, rows[k]) == Failure(PartitionOf(rows, q).error))
  {
    var init := rows[..|rows| - 1];
    if PartitionOf(init, q).Failure? {
      PartitionFailure(init, q);
      var k :| 0 <= k < |init| && Answerable(init[..k], q) &&
        Match(q, init[k]) == Failure(PartitionOf(init, q).error);
      assert init[..k] == rows[..k];
    } else {
      PartitionSucceeds(init, q);
      assert init == rows[..|rows| - 1];
    }
  }

  /** A failure on a prefix is the failure of the whole list. */
  lemma {:induction false} PartitionFailurePersists(rows: seq<Row>, q: Question, n: nat)
    requires n <= |rows| && PartitionOf(rows[..n], q).Failure?
    ensures PartitionOf(rows, q) == PartitionOf(rows[..n], q)
  {
    if n < |rows| {
      var init := rows[..|rows| - 1];
      assert init[..n] == rows[..n];
      PartitionFailurePersists(init, q, n);
    } else {
      assert rows[..n] == rows;
    }
  }

  /** `partition(rows, question)`. */
  method Partition(rows: seq<Row>, q: Question) returns (r: Result<(seq<Row>, seq<Row>)>)
    ensures r == PartitionOf(rows, q)
  {
    var trues: seq<Row>, falses: seq<Row> := [], [];
    for i := 0 to |rows|
      invariant PartitionOf(rows[..i], q) == Success((trues, falses))
    {
      assert rows[..i + 1][..i] == rows[..i];
      var m := Match(q, rows[i]);
      if m.Failure? {
        PartitionFailurePersists(rows, q, i + 1);
        return Failure(m.error);
      }
      if m.value {
        trues := trues + [rows[i]];
      } else {
        falses := falses + [rows[i]];
      }
    }
    assert rows[..|rows|] == rows;
    return Success((trues, falses));
  }

  const FruitRows: seq<Row> := [
    [Str("Green"), Int(3), Str("Apple")],
    [Str("Yellow"), Int(3), Str("Apple")],
    [Str("Red"), Int(1), Str("Grape")],
    [Str("Red"), Int(1), Str("Grape")],
    [Str("Yellow"), Int(3), Str("Lemon")]
  ]

  const RedQuestion: Question := Question(0, Str("Red"), None)

  /** Partitioning the fruit rows on `color == Red`, as the unit test expects. */
  lemma FruitPartition()
    ensures PartitionOf(FruitRows, RedQuestion) == Success((
      [[Str("Red"), Int(1), Str("Grape")], [Str("Red"), Int(1), Str("Grape")]],
      [[Str("Green"), Int(3), Str("Apple")], [Str("Yellow"), Int(3), Str("Apple")],
       [Str("Yellow"), Int(3), Str("Lemon")]]))
  {
    var r, q := FruitRows, RedQuestion;
    var none: seq<Row> := [];
    assert r[..1][..0] == [];
    assert none + [r[0]] == [r[0]];
    assert PartitionOf(r[..1], q) == Success((none, [r[0]]));
    assert r[..2][..1] == r[..1];
    assert [r[0]] + [r[1]] == [r[0], r[1]];
    assert PartitionOf(r[..2], q) == Success((none, [r[0], r[1]]));
    assert r[..3][..2] == r[..2];
    assert none + [r[2]] == [r[2]];
    assert PartitionOf(r[..3], q) == Success(([r[2]], [r[0], r[1]]));
    assert r[..4][..3] == r[..3];
    assert [r[2]] + [r[3]] == [r[2], r[3]];
    assert PartitionOf(r[..4], q) == Success(([r[2], r[3]], [r[0], r[1]]));
    assert r[..4] == r[..|r| - 1];
    assert [r[0], r[1]] + [r[4]] == [r[0], r[1], r[4]];
  }

  // ---------------------------------------------------------------------
  // class_counts

  predicate NoDuplicates(s: seq<Value>) {
    forall i, j :: 0 <= i < j < |s| ==> s[i] != s[j]
  }

  /** The distinct elements of `s`, in order of first occurrence. */
  function Distinct(s: seq<Value>): (r: seq<Value>)
    ensures forall x :: x in r <==> x in s
    ensures NoDuplicates(r)
    ensures |r| <= |s|
  {
    if s == [] then []
    else
      var d := Distinct(s[..|s| - 1]);
      if s[|s| - 1] in d then d else d + [s[|s| - 1]]
  }

  lemma DistinctSnoc(s: seq<Value>, x: Value)
    ensures Distinct(s + [x]) == if x in Distinct(s) then Distinct(s) else Distinct(s) + [x]
  {
    assert (s + [x])[..|s|] == s;
  }

  function Labels(rows: seq<Row>): (r: seq<Value>)
    ensures |r| == |rows|
  {
    seq(|rows|, k requires 0 <= k < |rows| => Label(rows[k]))
  }

  /** label -> number of occurrences. */
  function CountMap(s: seq<Value>): map<Value, nat> {
    map l | l in s :: multiset(s)[l]
  }

  /** A Python dict from label to count, with its keys in insertion order. */
  datatype Histogram = Histogram(labels: seq<Value>, count: map<Value, nat>)

  /** `counts[label] = counts.get(label, 0) + 1`: a new key goes to the end. */
  function AddLabel(h: Histogram, l: Value): Histogram {
    if l in h.count then Histogram(h.labels, h.count[l := h.count[l] + 1])
    else Histogram(h.labels + [l], h.count[l := 1])
  }

  /** The dict `class_counts(rows)` builds, one row at a time. */
  function CountsOf(rows: seq<Row>): Histogram {
    if rows == [] then Histogram([], map[])
    else AddLabel(CountsOf(rows[..|rows| - 1]), Label(rows[|rows| - 1]))
  }

  lemma {:induction false} CountsKeys(rows: seq<Row>)
    ensures forall l :: l in CountsOf(rows).labels <==> l in CountsOf(rows).count
    ensures CountsOf(rows).labels == [] <==> rows == []
  {
    if rows != [] {
      CountsKeys(rows[..|rows| - 1]);
    }
  }

  /** The dict holds each distinct label once, in order of first occurrence,
      mapped to its number of occurrences. */
  lemma {:induction false} CountsOfTally(rows: seq<Row>)
    ensures CountsOf(rows) == Histogram(Distinct(Labels(rows)), CountMap(Labels(rows)))
  {
    if rows != [] {
      var init := rows[..|rows| - 1];
      var l := Label(rows[|rows| - 1]);
      CountsOfTally(init);
      LabelsSnoc(rows);
      TallyStep(CountsOf(init), Labels(init), l);
    }
  }

  lemma LabelsSnoc(rows: seq<Row>)
    requires rows != []
    ensures Labels(rows) == Labels(rows[..|rows| - 1]) + [Label(rows[|rows| - 1])]
  {
    var init := rows[..|rows| - 1];
    assert forall k :: 0 <= k < |init| ==> init[k] == rows[k];
  }

  /** Adding one label to the tally of `s` gives the tally of `s + [l]`. */
  lemma TallyStep(h: Histogram, s: seq<Value>, l: Value)
    requires h == Histogram(Distinct(s), CountMap(s))
    ensures AddLabel(h, l) == Histogram(Distinct(s + [l]), CountMap(s + [l]))
  {
    DistinctSnoc(s, l);
    CountMapSnoc(s, l);
    assert l in CountMap(s) <==> l in Distinct(s);
  }

  lemma CountMapSnoc(s: seq<Value>, x: Value)
    ensures CountMap(s + [x]) == CountMap(s)[x := (if x in CountMap(s) then CountMap(s)[x] else 0) + 1]
  {
    var a := CountMap(s + [x]);
    var b := CountMap(s)[x := (if x in CountMap(s) then CountMap(s)[x] else 0) + 1];
    assert multiset(s + [x]) == multiset(s) + multiset{x};
    forall l ensures l in a <==> l in b {
      assert l in s + [x] <==> l in s || l == x;
    }
    forall l | l in a ensures a[l] == b[l] {
      if l != x {
        assert l in s;
      } else if x !in s {
        assert multiset(s)[x] == 0;
      }
    }
  }

  /** `class_counts(rows)`: one pass over the rows, updating a dict. */
  method ClassCounts(rows: seq<Row>) returns (h: Histogram)
    ensures h == CountsOf(rows)
    ensures forall l :: l in h.count <==> l in Labels(rows)
    ensures forall l :: l in h.count ==> h.count[l] == multiset(Labels(rows))[l]
  {
    var labels: seq<Value> := [];
    var counts: map<Value, nat> := map[];
    for i := 0 to |rows|
      invariant Histogram(labels, counts) == CountsOf(rows[..i])
    {
      var lbl := Label(rows[i]);
      assert rows[..i + 1][..i] == rows[..i];
      if lbl !in counts {
        labels := labels + [lbl];
      }
      counts := counts[lbl := (if lbl in counts then counts[lbl] else 0) + 1];
    }
    assert rows[..|rows|] == rows;
    h := Histogram(labels, counts);
    CountsOfTally(rows);
  }

  /** Sum of the counts of the given keys. */
  function SumCounts(keys: seq<Value>, count: map<Value, nat>): nat
    requires forall k :: k in keys ==> k in count
  {
    if keys == [] then 0 else SumCounts(keys[..|keys| - 1], count) + count[keys[|keys| - 1]]
  }

  /** Sum of the multiplicities in `m` of the given keys. */
  function SumMultiplicities(keys: seq<Value>, m: multiset<Value>): nat {
    if keys == [] then 0 else SumMultiplicities(keys[..|keys| - 1], m) + m[keys[|keys| - 1]]
  }

  lemma {:induction false} SumMultiplicitiesAddOne(keys: seq<Value>, m: multiset<Value>, x: Value)
    requires NoDuplicates(keys)
    ensures SumMultiplicities(keys, m + multiset{x}) == SumMultiplicities(keys, m) + (if x in keys then 1 else 0)
  {
    if keys != [] {
      var init := keys[..|keys| - 1];
      var last := keys[|keys| - 1];
      assert keys == init + [last];
      SumMultiplicitiesAddOne(init, m, x);
      assert x in keys <==> x in init || x == last;
    }
  }

  lemma {:induction false} SumCountsOfMap(keys: seq<Value>, s: seq<Value>)
    requires forall k :: k in keys ==> k in s
    ensures SumCounts(keys, CountMap(s)) == SumMultiplicities(keys, multiset(s))
  {
    if keys != [] {
      SumCountsOfMap(keys[..|keys| - 1], s);
      assert keys[|keys| - 1] in keys;
    }
  }

  lemma {:induction false} SumOfMultiplicities(s: seq<Value>)
    ensures SumMultiplicities(Distinct(s), multiset(s)) == |s|
  {
    if s != [] {
      var init := s[..|s| - 1];
      var x := s[|s| - 1];
      assert s == init + [x];
      SumOfMultiplicities(init);
      DistinctSnoc(init, x);
      var d := Distinct(init);
      assert multiset(s) == multiset(init) + multiset{x};
      SumMultiplicitiesAddOne(d, multiset(init), x);
      if x !in init {
        var d' := d + [x];
        assert d'[..|d'| - 1] == d;
        assert multiset(init)[x] == 0;
      }
    }
  }

  /** The counts over the distinct labels add up to the number of labels. */
  lemma SumOfCounts(s: seq<Value>)
    ensures SumCounts(Distinct(s), CountMap(s)) == |s|
  {
    SumOfMultiplicities(s);
    SumCountsOfMap(Distinct(s), s);
  }

  /** The properties of `class_counts` the unit test relies on: the keys are
      exactly the labels, each counted by its number of rows and so at least
      once, and the counts add up to the number of rows. */
  lemma ClassCountsCorrect(rows: seq<Row>)
    ensures var h := CountsOf(rows);
      && (forall l :: l in h.count <==> exists k :: 0 <= k < |rows| && Label(rows[k]) == l)
      && (forall l :: l in h.count ==> 1 <= h.count[l] == multiset(Labels(rows))[l] <= |rows|)
      && (forall l :: l in h.labels <==> l in h.count)
      && NoDuplicates(h.labels)
      && SumCounts(h.labels, h.count) == |rows|
  {
    CountsOfTally(rows);
    var s := Labels(rows);
    LabelsMembers(rows);
    forall l | l in s ensures multiset(s)[l] <= |rows| {
      MultiplicityBound(s, l);
    }
    SumOfCounts(s);
  }

  lemma LabelsMembers(rows: seq<Row>)
    ensures forall l :: l in Labels(rows) <==> exists k :: 0 <= k < |rows| && Label(rows[k]) == l
  {
    var s := Labels(rows);
    forall l ensures l in s <==> exists k :: 0 <= k < |rows| && Label(rows[k]) == l {
      if l in s {
        var k :| 0 <= k < |s| && s[k] == l;
        assert Label(rows[k]) == l;
      }
      if exists k :: 0 <= k < |rows| && Label(rows[k]) == l {
        var k :| 0 <= k < |rows| && Label(rows[k]) == l;
        assert s[k] == l;
      }
    }
  }

  lemma MultiplicityBound(s: seq<Value>, l: Value)
    ensures multiset(s)[l] <= |s|
  {
    if s != [] {
      assert s == s[..|s| - 1] + [s[|s| - 1]];
      MultiplicityBound(s[..|s| - 1], l);
    }
  }

  const FruitLabels: seq<Value> := [Str("Apple"), Str("Apple"), Str("Grape"), Str("Grape"), Str("Lemon")]

  lemma FruitLabelSequence()
    ensures Labels(FruitRows) == FruitLabels
  {
  }

  /** The histogram of the fruit rows is {Apple: 2, Grape: 2, Lemon: 1},
      with its keys in that insertion order. */
  lemma FruitCounts()
    ensures CountsOf(FruitRows).labels == [Str("Apple"), Str("Grape"), Str("Lemon")]
    ensures CountsOf(FruitRows).count == map[Str("Apple") := 2, Str("Grape") := 2, Str("Lemon") := 1]
  {
    CountsOfTally(FruitRows);
    FruitLabelSequence();
    FruitDistinct();
    FruitCountMap();
  }

  lemma FruitDistinct()
    ensures Distinct(FruitLabels) == [Str("Apple"), Str("Grape"), Str("Lemon")]
  {
    DistinctOfPairs(Str("Apple"), Str("Grape"), Str("Lemon"));
  }

  /** The first-occurrence lists of the prefixes of [a, a, g, g, l]. */
  lemma DistinctOfPairs(a: Value, g: Value, l: Value)
    requires a != g && a != l && g != l
    ensures Distinct([a, a, g, g, l]) == [a, g, l]
    ensures Distinct([a, a, l]) == [a, l]
  {
    DistinctTwoPairs(a, g);
    assert [a, a, g, g] + [l] == [a, a, g, g, l];
    assert [a, g] + [l] == [a, g, l];
    DistinctSnoc([a, a, g, g], l);
    DistinctAfterTwice(a, l);
  }

  lemma DistinctTwoPairs(a: Value, g: Value)
    requires a != g
    ensures Distinct([a, a, g, g]) == [a, g]
  {
    DistinctAfterTwice(a, g);
    assert [a, a, g] + [g] == [a, a, g, g];
    DistinctSnoc([a, a, g], g);
  }

  lemma DistinctTwice(a: Value)
    ensures Distinct([a, a]) == [a]
  {
    var none: seq<Value> := [];
    assert none + [a] == [a];
    assert [a] + [a] == [a, a];
    DistinctSnoc(none, a);
    DistinctSnoc([a], a);
  }

  lemma DistinctAfterTwice(a: Value, b: Value)
    requires a != b
    ensures Distinct([a, a, b]) == [a, b]
  {
    DistinctTwice(a);
    assert [a, a] + [b] == [a, a, b];
    assert [a] + [b] == [a, b];
    DistinctSnoc([a, a], b);
  }

  lemma FruitCountMap()
    ensures CountMap(FruitLabels) == map[Str("Apple") := 2, Str("Grape") := 2, Str("Lemon") := 1]
  {
    CountMapOfPairs(Str("Apple"), Str("Grape"), Str("Lemon"));
  }

  /** The tallies of [a, a, g, g, l] and of [a, a, l]. */
  lemma CountMapOfPairs(a: Value, g: Value, l: Value)
    requires a != g && a != l && g != l
    ensures CountMap([a, a, g, g, l]) == map[a := 2, g := 2, l := 1]
    ensures CountMap([a, a, l]) == map[a := 2, l := 1]
  {
    CountMapOfFive(a, g, l);
    CountMapOfThree(a, l);
  }

  lemma CountMapOfFive(a: Value, g: Value, l: Value)
    requires a != g && a != l && g != l
    ensures CountMap([a, a, g, g, l]) == map[a := 2, g := 2, l := 1]
  {
    var s := [a, a, g, g, l];
    assert multiset(s) == multiset{a, a, g, g, l};
    assert multiset(s)[a] == 2 && multiset(s)[g] == 2 && multiset(s)[l] == 1;
    assert CountMap(s).Keys == {a, g, l};
  }

  lemma CountMapOfThree(a: Value, l: Value)
    requires a != l
    ensures CountMap([a, a, l]) == map[a := 2, l := 1]
  {
    var t := [a, a, l];
    assert multiset(t) == multiset{a, a, l};
    assert multiset(t)[a] == 2 && multiset(t)[l] == 1;
    assert CountMap(t).Keys == {a, l};
  }

  // ---------------------------------------------------------------------
  // gini and info_gain

  /** `c / n` in Python 3: true division. */
  function Frac(c: int, n: int): real
    requires n != 0
  {
    c as real / n as real
  }

  function Square(x: real): real {
    x * x
  }

  /** The sum of (count[k] / n)² over the given keys. */
  function SumSquares(keys: seq<Value>, count: map<Value, nat>, n: nat): real
    requires forall k :: k in keys ==> k in count
    requires keys != [] ==> n > 0
  {
    if keys == [] then 0.0
    else SumSquares(keys[..|keys| - 1], count, n) + Square(Frac(count[keys[|keys| - 1]], n))
  }

  /** The value `gini(rows)` returns: one minus the squared frequency of each
      label.  With no rows there is no label, nothing is subtracted and the
      result is 1. */
  function GiniIndex(rows: seq<Row>): real {
    CountsKeys(rows);
    var h := CountsOf(rows);
    1.0 - SumSquares(h.labels, h.count, |rows|)
  }

  /** `gini(rows)`: the loop over the histogram's keys. */
  method Gini(rows: seq<Row>) returns (g: real)
    ensures g == GiniIndex(rows)
  {
    var counts := ClassCounts(rows);
    var n := |rows|;
    ClassCountsCorrect(rows);
    g := 1.0;
    for i := 0 to |counts.labels|
      invariant g == 1.0 - SumSquares(counts.labels[..i], counts.count, n)
    {
      var c := counts.count[counts.labels[i]];
      SumSquaresStep(counts.labels, counts.count, n, i);
      g := g - Square(Frac(c, n));
    }
    assert counts.labels[..|counts.labels|] == counts.labels;
  }

  lemma SumSquaresStep(keys: seq<Value>, count: map<Value, nat>, n: nat, i: nat)
    requires i < |keys| && n > 0 && forall k :: k in keys ==> k in count
    ensures SumSquares(keys[..i + 1], count, n) == SumSquares(keys[..i], count, n) + Square(Frac(count[keys[i]], n))
  {
    assert keys[..i + 1][..i] == keys[..i];
  }

  lemma {:induction false} SumSquaresBounds(keys: seq<Value>, count: map<Value, nat>, n: nat)
    requires n > 0
    requires forall k :: k in keys ==> k in count && 1 <= count[k] <= n
    ensures SumSquares(keys, count, n) <= SumCounts(keys, count) as real / n as real
    ensures keys != [] ==> SumSquares(keys, count, n) > 0.0
  {
    if keys != [] {
      var init := keys[..|keys| - 1];
      SumSquaresBounds(init, count, n);
      var c := count[keys[|keys| - 1]];
      FracSquareBound(c, n);
      FracAdd(SumCounts(init, count), c, n);
    }
  }

  lemma FracSquareBound(c: nat, n: nat)
    requires 1 <= c <= n
    ensures 0.0 < Square(Frac(c, n)) <= Frac(c, n)
  {
    var p := Frac(c, n);
    assert 0.0 < p <= 1.0;
    assert p * p <= p * 1.0;
  }

  lemma FracSelf(n: int)
    requires n != 0
    ensures Frac(n, n) == 1.0
  {
    var x := n as real;
    assert x != 0.0;
    assert x / x == 1.0;
  }

  lemma FracZero(n: int)
    requires n != 0
    ensures Frac(0, n) == 0.0
  {
    var x := n as real;
    assert x != 0.0;
    assert 0.0 / x == 0.0;
  }

  lemma FracAdd(a: int, b: int, n: int)
    requires n != 0
    ensures Frac(a, n) + Frac(b, n) == Frac(a + b, n)
  {
  }

  /** On a non-empty list the index lies in [0, 1): it is 0 when one label
      covers everything and stays below 1 because some label occurs. */
  lemma GiniBounds(rows: seq<Row>)
    requires rows != []
    ensures 0.0 <= GiniIndex(rows) < 1.0
  {
    var h := CountsOf(rows);
    var n := |rows|;
    ClassCountsCorrect(rows);
    assert forall k :: k in h.labels ==> k in h.count && 1 <= h.count[k] <= n;
    SumSquaresBounds(h.labels, h.count, n);
    assert Label(rows[0]) in h.count;
    assert h.labels != [];
    var sq := SumSquares(h.labels, h.count, n);
    FracSelf(n);
    assert 0.0 < sq <= Frac(n, n) == 1.0;
    assert GiniIndex(rows) == 1.0 - sq;
  }

  /** `gini([])` is 1: the loop body never runs. */
  lemma GiniOfNoRows()
    ensures GiniIndex([]) == 1.0
  {
  }

  lemma {:induction false} DistinctOfConstant(s: seq<Value>, x: Value)
    requires s != [] && forall k :: 0 <= k < |s| ==> s[k] == x
    ensures Distinct(s) == [x]
    ensures multiset(s)[x] == |s|
  {
    var init := s[..|s| - 1];
    assert s == init + [x];
    if init != [] {
      DistinctOfConstant(init, x);
    } else {
      var none: seq<Value> := [];
      assert Distinct(init) == none;
      assert none + [x] == [x];
    }
  }

  /** A list whose rows all carry one label has Gini index 0. */
  lemma GiniPure(rows: seq<Row>, l: Value)
    requires rows != [] && forall k :: 0 <= k < |rows| ==> Label(rows[k]) == l
    ensures GiniIndex(rows) == 0.0
  {
    CountsOfTally(rows);
    var s := Labels(rows);
    DistinctOfConstant(s, l);
    var h := CountsOf(rows);
    assert h.count[l] == |rows|;
    assert [l][..0] == [];
    FracSelf(|rows|);
    assert SumSquares([l], h.count, |rows|) == 0.0 + Square(Frac(|rows|, |rows|));
  }

  /** Two rows with different labels have Gini index 1/2. */
  lemma GiniTwoLabels(a: Row, b: Row)
    requires Label(a) != Label(b)
    ensures GiniIndex([a, b]) == 0.5
  {
    TwoLabelCounts(a, b);
    var la, lb := Label(a), Label(b);
    var m := map[la := 1, lb := 1];
    assert [la, lb][..1] == [la];
    assert [la][..0] == [];
    HalfSquare();
    assert SumSquares([la], m, 2) == Square(Frac(1, 2));
    assert SumSquares([la, lb], m, 2) == SumSquares([la], m, 2) + Square(Frac(1, 2));
  }

  lemma HalfSquare()
    ensures Square(Frac(1, 2)) == 0.25
  {
  }

  lemma TwoLabelCounts(a: Row, b: Row)
    requires Label(a) != Label(b)
    ensures CountsOf([a, b]) == Histogram([Label(a), Label(b)], map[Label(a) := 1, Label(b) := 1])
  {
    var none: seq<Row> := [];
    assert [a, b][..1] == [a];
    assert [a][..0] == none;
    assert CountsOf([a]) == Histogram([Label(a)], map[Label(a) := 1]);
  }

  /** `info_gain(trues, falses, current_gini)`.  Its division needs at least
      one row on some side. */
  function InfoGain(trues: seq<Row>, falses: seq<Row>, currentGini: real): real
    requires |trues| + |falses| > 0
  {
    var p := Frac(|trues|, |trues| + |falses|);
    currentGini - p * GiniIndex(trues) - (1.0 - p) * GiniIndex(falses)
  }

  /** A split that leaves one side empty gains nothing over its parent. */
  lemma InfoGainOneSided(trues: seq<Row>, falses: seq<Row>)
    requires |trues| + |falses| > 0 && (trues == [] || falses == [])
    ensures InfoGain(trues, falses, GiniIndex(trues + falses)) == 0.0
  {
    if trues == [] {
      assert trues + falses == falses;
      InfoGainNoTrues(falses);
    } else {
      assert trues + falses == trues;
      InfoGainNoFalses(trues);
    }
  }

  lemma InfoGainNoTrues(falses: seq<Row>)
    requires |falses| > 0
    ensures InfoGain([], falses, GiniIndex(falses)) == 0.0
  {
    var n := |falses|;
    FracZero(n);
    var none: seq<Row> := [];
    assert |none| + |falses| == n;
    WeightedDifference(GiniIndex(falses), GiniIndex(none), GiniIndex(falses), Frac(|none|, n));
  }

  lemma InfoGainNoFalses(trues: seq<Row>)
    requires |trues| > 0
    ensures InfoGain(trues, [], GiniIndex(trues)) == 0.0
  {
    var n := |trues|;
    FracSelf(n);
    var none: seq<Row> := [];
    assert |trues| + |none| == n;
    WeightedDifference(GiniIndex(trues), GiniIndex(trues), GiniIndex(none), Frac(|trues|, n));
  }

  /** The fruit rows: 1 - (2/5)² - (2/5)² - (1/5)² = 16/25. */
  lemma FruitGini()
    ensures GiniIndex(FruitRows) == 16.0 / 25.0
  {
    FruitCounts();
    var keys := [Str("Apple"), Str("Grape"), Str("Lemon")];
    var m := map[Str("Apple") := 2, Str("Grape") := 2, Str("Lemon") := 1];
    assert keys[..2] == [Str("Apple"), Str("Grape")];
    assert keys[..2][..1] == [Str("Apple")];
    assert keys[..1][..0] == [];
    FifthSquares();
    assert SumSquares(keys[..1], m, 5) == 4.0 / 25.0;
    assert SumSquares(keys[..2], m, 5) == 8.0 / 25.0;
    assert SumSquares(keys, m, 5) == 9.0 / 25.0;
  }

  lemma FifthSquares()
    ensures Square(Frac(2, 5)) == 4.0 / 25.0 && Square(Frac(1, 5)) == 1.0 / 25.0
  {
  }

  /** The rows that do not answer `color == Red`: 1 - (2/3)² - (1/3)² = 4/9. */
  lemma FruitFalsesGini()
    ensures GiniIndex([FruitRows[0], FruitRows[1], FruitRows[4]]) == 4.0 / 9.0
  {
    FruitFalsesCounts();
    var keys := [Str("Apple"), Str("Lemon")];
    var m := map[Str("Apple") := 2, Str("Lemon") := 1];
    assert keys[..1] == [Str("Apple")];
    assert keys[..1][..0] == [];
    ThirdSquares();
    assert SumSquares(keys[..1], m, 3) == 4.0 / 9.0;
    assert SumSquares(keys, m, 3) == 5.0 / 9.0;
  }

  lemma FruitFalsesCounts()
    ensures CountsOf([FruitRows[0], FruitRows[1], FruitRows[4]]) ==
      Histogram([Str("Apple"), Str("Lemon")], map[Str("Apple") := 2, Str("Lemon") := 1])
  {
    var rows := [FruitRows[0], FruitRows[1], FruitRows[4]];
    var a, l := Str("Apple"), Str("Lemon");
    CountsOfTally(rows);
    assert Labels(rows) == [a, a, l];
    FalsesDistinct();
    FalsesCountMap();
  }

  lemma FalsesDistinct()
    ensures Distinct([Str("Apple"), Str("Apple"), Str("Lemon")]) == [Str("Apple"), Str("Lemon")]
  {
    DistinctOfPairs(Str("Apple"), Str("Grape"), Str("Lemon"));
  }

  lemma FalsesCountMap()
    ensures CountMap([Str("Apple"), Str("Apple"), Str("Lemon")]) == map[Str("Apple") := 2, Str("Lemon") := 1]
  {
    CountMapOfPairs(Str("Apple"), Str("Grape"), Str("Lemon"));
  }

  lemma ThirdSquares()
    ensures Square(Frac(2, 3)) == 4.0 / 9.0 && Square(Frac(1, 3)) == 1.0 / 9.0
  {
  }

  /** The unit test's information gain of `color == Red` on the fruit rows:
      16/25 - 2/5 * 0 - 3/5 * 4/9 = 28/75 exactly (the test's constant,
      0.37333333333333324, is what the float evaluation of that expression
      rounds to, two units in the last place below the double nearest 28/75). */
  lemma FruitInfoGain()
    ensures InfoGain(FruitRows[2..4], [FruitRows[0], FruitRows[1], FruitRows[4]], GiniIndex(FruitRows)) == 28.0 / 75.0
  {
    var trues := FruitRows[2..4];
    var falses := [FruitRows[0], FruitRows[1], FruitRows[4]];
    assert trues == [FruitRows[2], FruitRows[3]];
    GiniPure(trues, Str("Grape"));
    FruitFalsesGini();
    FruitGini();
    assert Frac(|trues|, |trues| + |falses|) == 2.0 / 5.0;
  }

  lemma WeightedDifference(c: real, gt: real, gf: real, p: real)
    requires (p == 0.0 && c == gf) || (p == 1.0 && c == gt)
    ensures c - p * gt - (1.0 - p) * gf == 0.0
  {
  }

  // ---------------------------------------------------------------------
  // find_best_split

  /** `row[col]` exists in every row. */
  predicate ColumnPresent(rows: seq<Row>, c: nat) {
    forall k :: 0 <= k < |rows| ==> c < |rows[k]|
  }

  /** `[row[col] for row in rows]`. */
  function Column(rows: seq<Row>, c: nat): (r: seq<Value>)
    requires ColumnPresent(rows, c)
    ensures |r| == |rows| && forall k :: 0 <= k < |rows| ==> r[k] == rows[k][c]
  {
    seq(|rows|, k requires 0 <= k < |rows| => rows[k][c])
  }

  /** A column every question over which can be answered: all of its values
      are numbers, or all of them are strings. */
  predicate Uniform(rows: seq<Row>, c: nat)
    requires ColumnPresent(rows, c)
  {
    (forall k :: 0 <= k < |rows| ==> rows[k][c].Int?) || (forall k :: 0 <= k < |rows| ==> rows[k][c].Str?)
  }

  /** The questions asked about column `c`, one per distinct value. */
  function ColumnQuestions(rows: seq<Row>, c: nat, headers: Option<seq<string>>): (r: seq<Question>)
    requires ColumnPresent(rows, c)
    ensures |r| == |Distinct(Column(rows, c))|
    ensures forall j :: 0 <= j < |r| ==> r[j] == Question(c, Distinct(Column(rows, c))[j], headers)
  {
    var d := Distinct(Column(rows, c));
    seq(|d|, j requires 0 <= j < |d| => Question(c, d[j], headers))
  }

  /** Column `c` is asked about each of its values, and about nothing else. */
  lemma ColumnQuestionsCover(rows: seq<Row>, c: nat, headers: Option<seq<string>>)
    requires ColumnPresent(rows, c)
    ensures forall q :: q in ColumnQuestions(rows, c, headers) <==>
      q.column == c && q.headers == headers && q.value in Column(rows, c)
  {
    var d := Distinct(Column(rows, c));
    var r := ColumnQuestions(rows, c, headers);
    assert forall q :: q in r ==> q.value in d;
    assert forall v :: v in d ==> exists j :: 0 <= j < |d| && d[j] == v && r[j] == Question(c, v, headers);
  }

  /** Column `c` can always be split on when it is uniform. */
  lemma UniformAnswerable(rows: seq<Row>, c: nat, v: Value, headers: Option<seq<string>>)
    requires ColumnPresent(rows, c) && Uniform(rows, c) && v in Column(rows, c)
    ensures Answerable(rows, Question(c, v, headers))
  {
    var col := Column(rows, c);
    var j :| 0 <= j < |col| && col[j] == v;
    assert v == rows[j][c];
  }

  /** A column mixing numbers and strings makes its string questions raise TypeError. */
  lemma MixedUnanswerable(rows: seq<Row>, c: nat, headers: Option<seq<string>>)
    requires ColumnPresent(rows, c) && !Uniform(rows, c)
    ensures exists v :: v in Column(rows, c) && !Answerable(rows, Question(c, v, headers))
  {
    var i :| 0 <= i < |rows| && rows[i][c].Int?;
    var j :| 0 <= j < |rows| && rows[j][c].Str?;
    var v := rows[j][c];
    assert Column(rows, c)[j] == v;
    assert Match(Question(c, v, headers), rows[i]).Failure?;
  }

  /** A question over a column every row has can only raise TypeError. */
  lemma PresentColumnFailure(rows: seq<Row>, q: Question)
    requires 0 <= q.column && ColumnPresent(rows, q.column) && PartitionOf(rows, q).Failure?
    ensures PartitionOf(rows, q).error == TypeError
  {
    PartitionFailure(rows, q);
  }

  predicate AllAnswerable(rows: seq<Row>, qs: seq<Question>) {
    forall j :: 0 <= j < |qs| ==> Answerable(rows, qs[j])
  }

  /** Every question over a uniform column can be answered. */
  lemma ColumnAnswerable(rows: seq<Row>, c: nat, headers: Option<seq<string>>)
    requires ColumnPresent(rows, c) && Uniform(rows, c)
    ensures AllAnswerable(rows, ColumnQuestions(rows, c, headers))
  {
    var cq := ColumnQuestions(rows, c, headers);
    ColumnQuestionsCover(rows, c, headers);
    forall j | 0 <= j < |cq| ensures Answerable(rows, cq[j]) {
      assert cq[j] in cq;
      UniformAnswerable(rows, c, cq[j].value, headers);
    }
  }

  lemma AllAnswerableConcat(rows: seq<Row>, a: seq<Question>, b: seq<Question>)
    requires AllAnswerable(rows, a) && AllAnswerable(rows, b)
    ensures AllAnswerable(rows, a + b)
  {
    assert forall j :: |a| <= j < |a + b| ==> (a + b)[j] == b[j - |a|];
  }

  /** The outer loop of `find_best_split` over the first `nc` columns: the
      questions it asks, in order, or the exception that ends it. */
  function ScanColumns(rows: seq<Row>, nc: nat, headers: Option<seq<string>>): (r: Result<seq<Question>>)
    ensures r.Success? ==> AllAnswerable(rows, r.value)
  {
    if nc == 0 then Success([])
    else
      match ScanColumns(rows, nc - 1, headers)
      case Failure(e) => Failure(e)
      case Success(qs) =>
        if !ColumnPresent(rows, nc - 1) then Failure(IndexError)
        else if !Uniform(rows, nc - 1) then Failure(TypeError)
        else
          var cq := ColumnQuestions(rows, nc - 1, headers);
          ColumnAnswerable(rows, nc - 1, headers);
          AllAnswerableConcat(rows, qs, cq);
          Success(qs + cq)
  }

  /** Every one of the first `nc` columns can be split on. */
  predicate Splittable(rows: seq<Row>, nc: nat) {
    forall c :: 0 <= c < nc ==> ColumnPresent(rows, c) && Uniform(rows, c)
  }

  /** The scan succeeds exactly when every column is present and uniform. */
  lemma {:induction false} ScanColumnsSucceeds(rows: seq<Row>, nc: nat, headers: Option<seq<string>>)
    ensures ScanColumns(rows, nc, headers).Success? <==> Splittable(rows, nc)
  {
    if nc > 0 {
      ScanColumnsSucceeds(rows, nc - 1, headers);
      SplittableStep(rows, nc);
    }
  }

  lemma SplittableStep(rows: seq<Row>, nc: nat)
    requires nc > 0
    ensures Splittable(rows, nc) <==>
      Splittable(rows, nc - 1) && ColumnPresent(rows, nc - 1) && Uniform(rows, nc - 1)
  {
  }

  /** A successful scan asks every (column, value) question once, and nothing else. */
  lemma {:induction false} ScanColumnsAsks(rows: seq<Row>, nc: nat, headers: Option<seq<string>>)
    requires ScanColumns(rows, nc, headers).Success?
    ensures forall q :: q in ScanColumns(rows, nc, headers).value <==>
      0 <= q.column < nc && q.headers == headers && ColumnPresent(rows, q.column) &&
      q.value in Column(rows, q.column)
  {
    if nc > 0 {
      var qs := ScanColumns(rows, nc - 1, headers).value;
      ScanColumnsAsks(rows, nc - 1, headers);
      ColumnQuestionsCover(rows, nc - 1, headers);
      assert ScanColumns(rows, nc, headers).value == qs + ColumnQuestions(rows, nc - 1, headers);
    }
  }

  /** A failing scan raises the exception of its first bad column: IndexError
      for a column some row lacks, TypeError for a mixed one. */
  lemma {:induction false} ScanColumnsFailure(rows: seq<Row>, nc: nat, headers: Option<seq<string>>)
    requires ScanColumns(rows, nc, headers).Failure?
    ensures exists c :: (0 <= c < nc && Splittable(rows, c) &&
      ScanColumns(rows, nc, headers).error == (if ColumnPresent(rows, c) then TypeError else IndexError) &&
      !(ColumnPresent(rows, c) && Uniform(rows, c)))
  {
    if ScanColumns(rows, nc - 1, headers).Failure? {
      ScanColumnsFailure(rows, nc - 1, headers);
    } else {
      ScanColumnsSucceeds(rows, nc - 1, headers);
      var c := nc - 1;
      assert Splittable(rows, c) && !(ColumnPresent(rows, c) && Uniform(rows, c));
    }
  }

  lemma {:induction false} ScanFailurePersists(rows: seq<Row>, c: nat, nc: nat, headers: Option<seq<string>>)
    requires c <= nc && ScanColumns(rows, c, headers).Failure?
    ensures ScanColumns(rows, nc, headers) == ScanColumns(rows, c, headers)
  {
    if c < nc {
      ScanFailurePersists(rows, c, nc - 1, headers);
    }
  }

  /** The information gain of splitting `rows` on `q`. */
  function Gain(rows: seq<Row>, q: Question): real
    requires rows != [] && Answerable(rows, q)
  {
    PartitionSucceeds(rows, q);
    PartitionContents(rows, q);
    var parts := PartitionOf(rows, q).value;
    InfoGain(parts.0, parts.1, GiniIndex(rows))
  }

  /** The gain of each question in turn. */
  function Gains(rows: seq<Row>, qs: seq<Question>): (r: seq<real>)
    requires rows != [] && AllAnswerable(rows, qs)
    ensures |r| == |qs|
  {
    seq(|qs|, j requires 0 <= j < |qs| => Gain(rows, qs[j]))
  }

  lemma GainsSnoc(rows: seq<Row>, qs: seq<Question>, q: Question)
    requires rows != [] && AllAnswerable(rows, qs) && Answerable(rows, q)
    ensures AllAnswerable(rows, qs + [q])
    ensures Gains(rows, qs + [q]) == Gains(rows, qs) + [Gain(rows, q)]
  {
    assert forall j :: 0 <= j < |qs| ==> (qs + [q])[j] == qs[j];
  }

  /** The running best of the inner loop after the questions `qs` with gains
      `gains`: it starts at (None, 0) and a question at least as good as the
      best so far takes its place. */
  function Best(qs: seq<Question>, gains: seq<real>): (r: (Option<Question>, real))
    requires |qs| == |gains|
    ensures r.1 >= 0.0
    ensures r.0.None? ==> r.1 == 0.0
  {
    if qs == [] then (None, 0.0)
    else
      var n := |qs| - 1;
      var before := Best(qs[..n], gains[..n]);
      if before.1 <= gains[n] then (Some(qs[n]), gains[n]) else before
  }

  /** The running best is the largest gain, reached by the last question that
      attains it; it stays (None, 0) exactly when every gain is negative. */
  lemma {:induction false} BestIsLargest(qs: seq<Question>, gains: seq<real>)
    requires |qs| == |gains|
    ensures var r := Best(qs, gains);
      && (forall j :: 0 <= j < |qs| ==> gains[j] <= r.1)
      && (r.0.None? <==> forall j :: 0 <= j < |qs| ==> gains[j] < 0.0)
      && (r.0.Some? ==> exists j :: (0 <= j < |qs| && qs[j] == r.0.value && gains[j] == r.1 &&
           forall j' :: j < j' < |qs| ==> gains[j'] < r.1))
  {
    if qs != [] {
      var n := |qs| - 1;
      BestIsLargest(qs[..n], gains[..n]);
      assert forall j :: 0 <= j < n ==> qs[..n][j] == qs[j] && gains[..n][j] == gains[j];
    }
  }

  lemma BestSnoc(qs: seq<Question>, gains: seq<real>, q: Question, g: real)
    requires |qs| == |gains|
    ensures var b := Best(qs, gains);
      Best(qs + [q], gains + [g]) == if b.1 <= g then (Some(q), g) else b
  {
    assert (qs + [q])[..|qs|] == qs;
    assert (gains + [g])[..|qs|] == gains;
  }

  /** What `find_best_split(rows, headers)` returns: IndexError on no rows
      (from `rows[0]`), the first failing column's exception, or the best
      question with its gain. */
  function FindBestSplitOf(rows: seq<Row>, headers: Option<seq<string>>): Result<(Option<Question>, real)> {
    if rows == [] then Failure(IndexError)
    else
      match ScanColumns(rows, |rows[0]| - 1, headers)
      case Failure(e) => Failure(e)
      case Success(qs) => Success(Best(qs, Gains(rows, qs)))
  }

  /** A question the search asks: a feature column below `nf`, every row
      having it, and a value that occurs in it. */
  predicate IsCandidate(rows: seq<Row>, nf: nat, headers: Option<seq<string>>, q: Question) {
    0 <= q.column < nf && q.headers == headers && ColumnPresent(rows, q.column) &&
    q.value in Column(rows, q.column)
  }

  /** The search of `find_best_split` succeeds exactly on a non-empty list
      whose every feature column is present in all rows and uniform. */
  lemma FindBestSplitSucceeds(rows: seq<Row>, headers: Option<seq<string>>)
    ensures FindBestSplitOf(rows, headers).Success? <==> rows != [] && Splittable(rows, |rows[0]| - 1)
  {
    if rows != [] {
      ScanColumnsSucceeds(rows, |rows[0]| - 1, headers);
    }
  }

  /** A successful search returns a gain of at least 0 that no candidate
      question exceeds; the question it returns, if any, is a candidate with
      exactly that gain. */
  lemma FindBestSplitBest(rows: seq<Row>, headers: Option<seq<string>>)
    requires FindBestSplitOf(rows, headers).Success?
    ensures var (best, gain) := FindBestSplitOf(rows, headers).value;
      && gain >= 0.0
      && (best.Some? ==> IsCandidate(rows, |rows[0]| - 1, headers, best.value) &&
                         Answerable(rows, best.value) && Gain(rows, best.value) == gain)
      && forall q :: IsCandidate(rows, |rows[0]| - 1, headers, q) ==>
           Answerable(rows, q) && Gain(rows, q) <= gain
  {
    var nf := |rows[0]| - 1;
    ScanColumnsAsks(rows, nf, headers);
    var qs := ScanColumns(rows, nf, headers).value;
    BestOfGains(rows, qs);
  }

  /** The running best over the gains of `qs` is the gain of one of them, and
      none has a larger one. */
  lemma BestOfGains(rows: seq<Row>, qs: seq<Question>)
    requires rows != [] && AllAnswerable(rows, qs)
    ensures var r := Best(qs, Gains(rows, qs));
      && (r.0.Some? ==> r.0.value in qs && Answerable(rows, r.0.value) && Gain(rows, r.0.value) == r.1)
      && forall q :: q in qs ==> Answerable(rows, q) && Gain(rows, q) <= r.1
  {
    var gains := Gains(rows, qs);
    var r := Best(qs, gains);
    BestIsLargest(qs, gains);
    if r.0.Some? {
      var j :| 0 <= j < |qs| && qs[j] == r.0.value && gains[j] == r.1;
      assert gains[j] == Gain(rows, qs[j]);
    }
    forall q | q in qs
      ensures Answerable(rows, q) && Gain(rows, q) <= r.1
    {
      var j :| 0 <= j < |qs| && qs[j] == q;
      assert gains[j] == Gain(rows, qs[j]);
    }
  }

  /** A failing search raises IndexError on no rows, otherwise the exception
      of the first feature column that is missing from a row (IndexError) or
      that mixes numbers and strings (TypeError). */
  lemma FindBestSplitFailure(rows: seq<Row>, headers: Option<seq<string>>)
    requires rows != [] && FindBestSplitOf(rows, headers).Failure?
    ensures exists c :: (0 <= c < |rows[0]| - 1 && Splittable(rows, c) &&
      !(ColumnPresent(rows, c) && Uniform(rows, c)) &&
      FindBestSplitOf(rows, headers).error == (if ColumnPresent(rows, c) then TypeError else IndexError))
  {
    ScanColumnsFailure(rows, |rows[0]| - 1, headers);
  }

  /** `set([row[col] for row in rows])`, enumerated in order of first occurrence. */
  method DistinctColumn(rows: seq<Row>, c: nat) returns (r: Result<seq<Value>>)
    ensures r.Success? <==> ColumnPresent(rows, c)
    ensures r.Success? ==> r.value == Distinct(Column(rows, c))
    ensures r.Failure? ==> r.error == IndexError
  {
    var values: seq<Value> := [];
    for k := 0 to |rows|
      invariant ColumnPresent(rows[..k], c)
      invariant values == Distinct(Column(rows[..k], c))
    {
      if |rows[k]| <= c {
        return Failure(IndexError);
      }
      var col := Column(rows[..k + 1], c);
      assert col[..k] == Column(rows[..k], c);
      if rows[k][c] !in values {
        values := values + [rows[k][c]];
      }
    }
    assert rows[..|rows|] == rows;
    return Success(values);
  }

  /** A question over a present column that `partition` cannot answer
      raises TypeError, and only a mixed column has one. */
  lemma ValueFails(rows: seq<Row>, col: nat, q: Question)
    requires ColumnPresent(rows, col) && q.column == col && q.value in Column(rows, col)
    requires PartitionOf(rows, q).Failure?
    ensures !Uniform(rows, col) && PartitionOf(rows, q).error == TypeError
  {
    PartitionSucceeds(rows, q);
    if Uniform(rows, col) {
      UniformAnswerable(rows, col, q.value, q.headers);
    }
    PresentColumnFailure(rows, q);
  }

  lemma AllAnswerableSuffix(rows: seq<Row>, a: seq<Question>, b: seq<Question>)
    requires AllAnswerable(rows, a + b)
    ensures AllAnswerable(rows, b)
  {
    assert forall j :: 0 <= j < |b| ==> (a + b)[|a| + j] == b[j];
  }

  /** A column all of whose questions are answerable extends the scan by them. */
  lemma ColumnDone(rows: seq<Row>, col: nat, headers: Option<seq<string>>, qs: seq<Question>)
    requires ScanColumns(rows, col, headers) == Success(qs) && ColumnPresent(rows, col)
    requires AllAnswerable(rows, qs + ColumnQuestions(rows, col, headers))
    ensures ScanColumns(rows, col + 1, headers) == Success(qs + ColumnQuestions(rows, col, headers))
  {
    AnsweredColumnUniform(rows, col, headers, qs);
  }

  /** A column all of whose questions are answerable is uniform. */
  lemma AnsweredColumnUniform(rows: seq<Row>, col: nat, headers: Option<seq<string>>, qs: seq<Question>)
    requires ColumnPresent(rows, col) && AllAnswerable(rows, qs + ColumnQuestions(rows, col, headers))
    ensures Uniform(rows, col)
  {
    AllAnswerableSuffix(rows, qs, ColumnQuestions(rows, col, headers));
    ColumnQuestionsCover(rows, col, headers);
    if !Uniform(rows, col) {
      MixedUnanswerable(rows, col, headers);
    }
  }

  /** One step of the inner loop: `partition` on the question, then `info_gain`. */
  method QuestionGain(rows: seq<Row>, q: Question, currentGini: real) returns (r: Result<real>)
    requires rows != [] && currentGini == GiniIndex(rows)
    ensures r.Success? <==> Answerable(rows, q)
    ensures r.Success? ==> r.value == Gain(rows, q)
    ensures r.Failure? ==> PartitionOf(rows, q) == Failure(r.error)
  {
    var parts := Partition(rows, q);
    PartitionSucceeds(rows, q);
    if parts.Failure? {
      return Failure(parts.error);
    }
    PartitionContents(rows, q);
    return Success(InfoGain(parts.value.0, parts.value.1, currentGini));
  }

  /** `best` is the running best after asking the questions `qs`, all of
      which can be answered. */
  predicate Searched(rows: seq<Row>, qs: seq<Question>, best: (Option<Question>, real))
    requires rows != []
  {
    AllAnswerable(rows, qs) && best == Best(qs, Gains(rows, qs))
  }

  /** The inner loop of `find_best_split` over the distinct values of column
      `col`, continuing the running best of the questions `done` asked
      before.  It ends with the running best of `done` followed by this
      column's questions, or with the TypeError of a mixed column. */
  method SearchColumn(rows: seq<Row>, col: nat, headers: Option<seq<string>>, values: seq<Value>,
                      currentGini: real, best: (Option<Question>, real), ghost done: seq<Question>)
    returns (r: Result<(Option<Question>, real)>)
    requires rows != [] && currentGini == GiniIndex(rows)
    requires ColumnPresent(rows, col) && values == Distinct(Column(rows, col))
    requires Searched(rows, done, best)
    ensures r.Success? <==> Uniform(rows, col)
    ensures r.Success? ==> Searched(rows, done + ColumnQuestions(rows, col, headers), r.value)
    ensures r.Failure? ==> r.error == TypeError
  {
    ghost var cq := ColumnQuestions(rows, col, headers);
    var bestQuestion, bestGain := best.0, best.1;
    assert done + cq[..0] == done;
    for i := 0 to |values|
      invariant Searched(rows, done + cq[..i], (bestQuestion, bestGain))
    {
      var question := Question(col, values[i], headers);
      assert question == cq[i];
      var g := QuestionGain(rows, question, currentGini);
      if g.Failure? {
        ValueFails(rows, col, question);
        return Failure(g.error);
      }
      var gain := g.value;
      SearchStep(rows, done, cq, i, bestQuestion, bestGain, gain);
      if bestGain <= gain {
        bestQuestion, bestGain := Some(question), gain;
      }
    }
    assert cq[..|values|] == cq;
    AnsweredColumnUniform(rows, col, headers, done);
    return Success((bestQuestion, bestGain));
  }

  /** One step of the inner loop: asking `cq[i]` extends the questions asked
      so far by one, and the best pair is updated as `find_best_split` does. */
  lemma SearchStep(rows: seq<Row>, done: seq<Question>, cq: seq<Question>, i: nat,
                   bq: Option<Question>, bg: real, gain: real)
    requires rows != [] && i < |cq| && Searched(rows, done + cq[..i], (bq, bg))
    requires Answerable(rows, cq[i]) && gain == Gain(rows, cq[i])
    ensures Searched(rows, done + cq[..i + 1], if bg <= gain then (Some(cq[i]), gain) else (bq, bg))
  {
    var all := done + cq[..i];
    PrefixSnoc(done, cq, i);
    GainsSnoc(rows, all, cq[i]);
    BestSnoc(all, Gains(rows, all), cq[i], gain);
  }

  lemma PrefixSnoc(a: seq<Question>, b: seq<Question>, i: nat)
    requires i < |b|
    ensures a + b[..i + 1] == (a + b[..i]) + [b[i]]
  {
    assert b[..i + 1] == b[..i] + [b[i]];
  }

  /** An exception in some column is the exception of the whole search. */
  lemma SearchStops(rows: seq<Row>, c: nat, headers: Option<seq<string>>)
    requires rows != [] && c <= |rows[0]| - 1 && ScanColumns(rows, c, headers).Failure?
    ensures FindBestSplitOf(rows, headers) == Failure(ScanColumns(rows, c, headers).error)
  {
    ScanFailurePersists(rows, c, |rows[0]| - 1, headers);
  }

  /** `find_best_split(rows, headers)`: the loop over the feature columns. */
  method FindBestSplit(rows: seq<Row>, headers: Option<seq<string>>) returns (r: Result<(Option<Question>, real)>)
    ensures r == FindBestSplitOf(rows, headers)
  {
    var currentGini := Gini(rows);
    if rows == [] {
      return Failure(IndexError);
    }
    var nFeatures := |rows[0]| - 1;
    var best: (Option<Question>, real) := (None, 0.0);
    ghost var qs: seq<Question> := [];
    for col := 0 to nFeatures
      invariant ScanColumns(rows, col, headers) == Success(qs)
      invariant best == Best(qs, Gains(rows, qs))
    {
      var values := DistinctColumn(rows, col);
      if values.Failure? {
        assert ScanColumns(rows, col + 1, headers) == Failure(IndexError);
        SearchStops(rows, col + 1, headers);
        return Failure(values.error);
      }
      var s := SearchColumn(rows, col, headers, values.value, currentGini, best, qs);
      if s.Failure? {
        assert ScanColumns(rows, col + 1, headers) == Failure(TypeError);
        SearchStops(rows, col + 1, headers);
        return Failure(s.error);
      }
      ColumnDone(rows, col, headers, qs);
      qs := qs + ColumnQuestions(rows, col, headers);
      best := s.value;
    }
    return Success(best);
  }

  /** The one question of a single row `[x, l]`. */
  lemma SingleRowScan(rows: seq<Row>, x: Value, l: Value, headers: Option<seq<string>>)
    requires rows == [[x, l]]
    ensures ScanColumns(rows, 1, headers) == Success([Question(0, x, headers)])
  {
    var col := Column(rows, 0);
    assert col == [x];
    var none: seq<Value> := [];
    assert col[..0] == none;
    assert none + [x] == [x];
    assert Distinct(col) == [x];
    assert ColumnQuestions(rows, 0, headers) == [Question(0, x, headers)];
    assert [] + [Question(0, x, headers)] == [Question(0, x, headers)];
  }

  /** Splitting a single row leaves it on the true side and gains nothing. */
  lemma SingleRowGain(rows: seq<Row>, x: Value, l: Value, headers: Option<seq<string>>)
    requires rows == [[x, l]]
    ensures Answerable(rows, Question(0, x, headers)) && Gain(rows, Question(0, x, headers)) == 0.0
  {
    var q := Question(0, x, headers);
    assert Match(q, rows[0]) == Success(true);
    var rowsNone: seq<Row> := [];
    assert rows[..0] == rowsNone;
    assert PartitionOf(rows, q) == Success((rowsNone + [rows[0]], rowsNone));
    assert rowsNone + [rows[0]] == rows;
    GiniPure(rows, l);
    InfoGainNoFalses(rows);
  }

  lemma SingleBest(q: Question, g: real)
    requires g >= 0.0
    ensures Best([q], [g]) == (Some(q), g)
  {
    var none: seq<Question> := [];
    var noGains: seq<real> := [];
    assert [q][..0] == none && [g][..0] == noGains;
  }

  /** The search does not skip a question that gains nothing: on a single
      row `[x, l]` it still returns the row's only question, with gain 0. */
  lemma SingleRowSplit(x: Value, l: Value, headers: Option<seq<string>>)
    ensures FindBestSplitOf([[x, l]], headers) == Success((Some(Question(0, x, headers)), 0.0))
  {
    var rows: seq<Row> := [[x, l]];
    var q := Question(0, x, headers);
    SingleRowScan(rows, x, l, headers);
    SingleRowGain(rows, x, l, headers);
    assert Gains(rows, [q]) == [Gain(rows, q)];
    SingleBest(q, 0.0);
  }
}
