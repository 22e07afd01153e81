/**
 * Label handling of the classifier's training script: dropping incomplete
 * rows, dropping classes seen fewer than twice, encoding labels as the
 * indices of the sorted distinct classes, and the `partial_fit` batches.
 */
module Training {
  import opened Wrappers
  import opened Chunking

  // ---------------------------------------------------------------------------
  // Python string order

  /** Python's `a < b` on strings: code point by code point, a proper prefix first. */
  predicate LexLess(a: string, b: string) {
    if a == [] then b != []
    else if b == [] then false
    else if a[0] != b[0] then a[0] < b[0]
    else LexLess(a[1..], b[1..])
  }

  lemma {:induction false} LexIrreflexive(a: string)
    ensures !LexLess(a, a)
  {
    if a != [] { LexIrreflexive(a[1..]); }
  }

  lemma {:induction false} LexTransitive(a: string, b: string, c: string)
    requires LexLess(a, b) && LexLess(b, c)
    ensures LexLess(a, c)
    decreases |a|
  {
    if a != [] && b != [] && c != [] && a[0] == b[0] && b[0] == c[0] {
      LexTransitive(a[1..], b[1..], c[1..]);
    }
  }

  lemma {:induction false} LexTotal(a: string, b: string)
    ensures a == b || LexLess(a, b) || LexLess(b, a)
    decreases |a|
  {
    if a != [] && b != [] && a[0] == b[0] {
      LexTotal(a[1..], b[1..]);
      if a[1..] == b[1..] {
        assert a == [a[0]] + a[1..] && b == [b[0]] + b[1..];
      }
    }
  }

  lemma LexAsymmetric(a: string, b: string)
    requires LexLess(a, b)
    ensures !LexLess(b, a)
  {
    if LexLess(b, a) {
      LexTransitive(a, b, a);
      LexIrreflexive(a);
    }
  }

  predicate StrictlyIncreasing(xs: seq<string>) {
    forall i, j :: 0 <= i < j < |xs| ==> LexLess(xs[i], xs[j])
  }

  // ---------------------------------------------------------------------------
  // prepare_labels

  /** Inserting into a strictly increasing list keeps it strictly increasing, once per value. */
  function Insert(xs: seq<string>, x: string): (r: seq<string>)
    requires StrictlyIncreasing(xs)
    ensures StrictlyIncreasing(r)
    ensures forall y :: y in r <==> y in xs || y == x
    decreases |xs|
  {
    if xs == [] then [x]
    else if x == xs[0] then xs
    else if LexLess(x, xs[0]) then
      assert forall j :: 0 < j < |xs| ==> LexLess(x, xs[j]) by {
        forall j | 0 < j < |xs| ensures LexLess(x, xs[j]) { LexTransitive(x, xs[0], xs[j]); }
      }
      [x] + xs
    else
      var tail := xs[1..];
      assert StrictlyIncreasing(tail);
      var rest := Insert(tail, x);
      LexTotal(x, xs[0]);
      assert forall y :: y in rest ==> LexLess(xs[0], y) by {
        forall y | y in rest ensures LexLess(xs[0], y) {
          if y != x {
            var j :| 0 <= j < |tail| && tail[j] == y;
            assert xs[j + 1] == y;
          }
        }
      }
      [xs[0]] + rest
  }

  /** `sorted(list(set(labels)))`. */
  function SortedClasses(labels: seq<string>): (classes: seq<string>)
    ensures StrictlyIncreasing(classes)
    ensures forall c :: c in classes <==> c in labels
  {
    if labels == [] then []
    else
      var rest := SortedClasses(labels[..|labels| - 1]);
      assert forall c :: c in labels <==> c in labels[..|labels| - 1] || c == labels[|labels| - 1] by {
        assert labels == labels[..|labels| - 1] + [labels[|labels| - 1]];
      }
      Insert(rest, labels[|labels| - 1])
  }

  /** A strictly increasing list has no repeated element. */
  lemma IncreasingDistinct(xs: seq<string>, i: int, j: int)
    requires StrictlyIncreasing(xs) && 0 <= i < |xs| && 0 <= j < |xs| && xs[i] == xs[j]
    ensures i == j
  {
    if i < j { LexIrreflexive(xs[i]); }
    if j < i { LexIrreflexive(xs[j]); }
  }

  /** The position of `c` in `xs`. */
  function IndexIn(xs: seq<string>, c: string): (i: nat)
    requires c in xs
    ensures i < |xs| && xs[i] == c
  {
    if xs[0] == c then 0 else 1 + IndexIn(xs[1..], c)
  }

  datatype Encoding = Encoding(
    y: seq<nat>,
    classes: seq<string>,
    label2idx: map<string, nat>,
    idx2label: map<nat, string>)

  /** `prepare_labels(labels)`. */
  function PrepareLabels(labels: seq<string>): (e: Encoding)
  {
    var classes := SortedClasses(labels);
    var label2idx := map c | c in classes :: IndexIn(classes, c);
    var idx2label := InvertIndex(label2idx, classes);
    Encoding(seq(|labels|, i requires 0 <= i < |labels| => label2idx[labels[i]]), classes, label2idx, idx2label)
  }

  /** `{i: c for c, i in label2idx.items()}`. */
  function InvertIndex(label2idx: map<string, nat>, classes: seq<string>): (r: map<nat, string>)
    requires StrictlyIncreasing(classes)
    requires forall c :: c in label2idx <==> c in classes
    requires forall c :: c in label2idx ==> label2idx[c] < |classes| && classes[label2idx[c]] == c
    ensures forall c :: c in label2idx ==> label2idx[c] in r && r[label2idx[c]] == c
    ensures forall i :: i in r ==> r[i] in label2idx && label2idx[r[i]] == i
  {
    assert forall a, b :: a in label2idx && b in label2idx && label2idx[a] == label2idx[b] ==> a == b;
    map c | c in label2idx :: label2idx[c] := c
  }

  /**
   * `classes` is strictly increasing and holds exactly the labels;
   * `label2idx` maps `classes[i]` to `i` and `idx2label` inverts it; every
   * `y[i]` is a valid index that decodes back to `labels[i]`.
   */
  lemma PrepareLabelsCorrect(labels: seq<string>)
    ensures var e := PrepareLabels(labels);
      && StrictlyIncreasing(e.classes)
      && (forall c :: c in e.classes <==> c in labels)
      && (forall i :: 0 <= i < |e.classes| ==> e.classes[i] in e.label2idx && e.label2idx[e.classes[i]] == i)
      && (forall i :: 0 <= i < |e.classes| ==> i in e.idx2label && e.idx2label[i] == e.classes[i])
      && (forall i :: i in e.idx2label ==> 0 <= i < |e.classes|)
      && |e.y| == |labels|
      && (forall i :: 0 <= i < |labels| ==> e.y[i] < |e.classes| && e.idx2label[e.y[i]] == labels[i])
  {
    var e := PrepareLabels(labels);
    forall i | 0 <= i < |e.classes|
      ensures e.classes[i] in e.label2idx && e.label2idx[e.classes[i]] == i
    {
      var k := IndexIn(e.classes, e.classes[i]);
      IncreasingDistinct(e.classes, i, k);
    }
    forall i | 0 <= i < |e.classes|
      ensures i in e.idx2label && e.idx2label[i] == e.classes[i]
    {
      assert e.label2idx[e.classes[i]] == i;
    }
  }

  // ---------------------------------------------------------------------------
  // load_data and the class filter

  /** A CSV row: None for a missing value. */
  datatype CsvRow = CsvRow(text: Option<string>, labelCell: Option<string>)
  datatype Sample = Sample(text: string, category: string)

  /** `df.dropna(subset=["text", "label"])`, in row order. */
  function DropMissing(rows: seq<CsvRow>): (r: seq<Sample>)
    ensures |r| <= |rows|
    ensures forall s :: s in r <==> CsvRow(Some(s.text), Some(s.category)) in rows
    ensures forall s :: multiset(r)[s] == multiset(rows)[CsvRow(Some(s.text), Some(s.category))]
    decreases |rows|
  {
    if rows == [] then []
    else
      var rest := DropMissing(rows[1..]);
      assert rows == [rows[0]] + rows[1..];
      assert forall x :: x in rows <==> x == rows[0] || x in rows[1..];
      if rows[0].text.Some? && rows[0].labelCell.Some? then [Sample(rows[0].text.value, rows[0].labelCell.value)] + rest
      else rest
  }

  /** `dropna` looks at each row on its own, so it keeps the order of the rows. */
  lemma {:induction false} DropMissingAppend(a: seq<CsvRow>, b: seq<CsvRow>)
    ensures DropMissing(a + b) == DropMissing(a) + DropMissing(b)
    decreases |a|
  {
    if a != [] {
      var ab := a + b;
      assert ab[0] == a[0] && ab[1..] == a[1..] + b;
      DropMissingAppend(a[1..], b);
      var tail := DropMissing(a[1..]);
      if a[0].text.Some? && a[0].labelCell.Some? {
        var x := Sample(a[0].text.value, a[0].labelCell.value);
        assert DropMissing(ab) == [x] + (tail + DropMissing(b));
        assert DropMissing(a) == [x] + tail;
        assert [x] + (tail + DropMissing(b)) == ([x] + tail) + DropMissing(b);
      } else {
        assert DropMissing(ab) == tail + DropMissing(b);
        assert DropMissing(a) == tail;
      }
    } else {
      assert a + b == b;
    }
  }

  function Labels(samples: seq<Sample>): (ls: seq<string>)
    ensures |ls| == |samples| && forall i :: 0 <= i < |samples| ==> ls[i] == samples[i].category
  {
    seq(|samples|, i requires 0 <= i < |samples| => samples[i].category)
  }

  /** `class_counts[label]`. */
  function Occurrences(samples: seq<Sample>, c: string): nat {
    multiset(Labels(samples))[c]
  }

  /** `df[df['label'].isin(valid_classes)]`: the rows whose label occurs at least twice. */
  function KeepFrequent(samples: seq<Sample>): (r: seq<Sample>) {
    FilterFrequent(samples, multiset(Labels(samples)))
  }

  function FilterFrequent(samples: seq<Sample>, counts: multiset<string>): (r: seq<Sample>)
    ensures forall s :: s in r <==> s in samples && counts[s.category] >= 2
    decreases |samples|
  {
    if samples == [] then []
    else
      var rest := FilterFrequent(samples[1..], counts);
      assert forall x :: x in samples <==> x == samples[0] || x in samples[1..];
      if counts[samples[0].category] >= 2 then [samples[0]] + rest else rest
  }

  /** The row filter looks at each row on its own, so it keeps the order of the rows. */
  lemma {:induction false} FilterFrequentAppend(a: seq<Sample>, b: seq<Sample>, counts: multiset<string>)
    ensures FilterFrequent(a + b, counts) == FilterFrequent(a, counts) + FilterFrequent(b, counts)
    decreases |a|
  {
    if a != [] {
      var keep := if counts[a[0].category] >= 2 then [a[0]] else [];
      var tail, right := FilterFrequent(a[1..], counts), FilterFrequent(b, counts);
      calc {
        FilterFrequent(a + b, counts);
        { assert a + b == [a[0]] + (a[1..] + b); }
        FilterFrequent([a[0]] + (a[1..] + b), counts);
        { FilterFrequentCons(a[0], a[1..] + b, counts); }
        keep + FilterFrequent(a[1..] + b, counts);
        { FilterFrequentAppend(a[1..], b, counts); }
        keep + (tail + right);
        { AppendAssoc(keep, tail, right); }
        (keep + tail) + right;
        { FilterFrequentCons(a[0], a[1..], counts); assert [a[0]] + a[1..] == a; }
        FilterFrequent(a, counts) + right;
      }
    } else {
      assert a + b == b;
    }
  }

  /** The filter keeps every copy of a row with a frequent label and no copy of any other row. */
  lemma {:induction false} FilterFrequentCounts(samples: seq<Sample>, counts: multiset<string>)
    ensures forall s :: multiset(FilterFrequent(samples, counts))[s]
                     == if counts[s.category] >= 2 then multiset(samples)[s] else 0
    decreases |samples|
  {
    if samples != [] {
      FilterFrequentCounts(samples[1..], counts);
      FilterFrequentCons(samples[0], samples[1..], counts);
      assert samples == [samples[0]] + samples[1..];
    }
  }

  lemma AppendAssoc<T>(x: seq<T>, y: seq<T>, z: seq<T>)
    ensures x + (y + z) == (x + y) + z
  {
  }

  /** One row of the filter: kept in front when its label is frequent, dropped otherwise. */
  lemma FilterFrequentCons(x: Sample, t: seq<Sample>, counts: multiset<string>)
    ensures FilterFrequent([x] + t, counts)
         == (if counts[x.category] >= 2 then [x] else []) + FilterFrequent(t, counts)
  {
    assert ([x] + t)[0] == x && ([x] + t)[1..] == t;
    if counts[x.category] < 2 {
      assert [] + FilterFrequent(t, counts) == FilterFrequent(t, counts);
    }
  }

  /** The classes dropped with a warning: the labels seen exactly once. */
  function DroppedClasses(samples: seq<Sample>): (d: set<string>)
    ensures forall c :: c in d <==> c in Labels(samples) && Occurrences(samples, c) < 2
  {
    set c | c in Labels(samples) && Occurrences(samples, c) < 2
  }

  /**
   * The filter keeps exactly the rows of labels seen at least twice, and
   * every label it keeps still occurs at least twice afterwards.
   */
  lemma {:induction false} KeepFrequentCorrect(samples: seq<Sample>)
    ensures forall s :: s in KeepFrequent(samples) <==> s in samples && Occurrences(samples, s.category) >= 2
    ensures forall c :: c in DroppedClasses(samples) ==> Occurrences(samples, c) == 1
    ensures forall s :: s in KeepFrequent(samples) ==> s.category !in DroppedClasses(samples)
  {
    forall c | c in DroppedClasses(samples) ensures Occurrences(samples, c) == 1 {
      assert c in multiset(Labels(samples));
    }
  }

  // ---------------------------------------------------------------------------
  // The partial_fit batches

  /** One `partial_fit(X_train[start:end], y_train[start:end], ...)` call; `withClasses` when `classes=` is passed. */
  datatype Batch = Batch(start: int, end: int, withClasses: bool)

  /** The `k`-th batch over `n` rows. */
  function BatchAt(n: int, size: int, k: int): Batch {
    Batch(Start(k, size), Min(n, Start(k, size) + size), k == 0)
  }

  /** The batch loop of `initial_train` over `n` training rows. */
  method FitBatches(n: nat, batchSize: int) returns (batches: seq<Batch>)
    requires batchSize >= 1
    ensures |batches| == GroupCount(n, batchSize)
    ensures forall k :: 0 <= k < |batches| ==>
      batches[k] == BatchAt(n, batchSize, k)
  {
    batches := [];
    var start := 0;
    ghost var c := GroupCount(n, batchSize);
    while start < n
      invariant start == Start(|batches|, batchSize)
      invariant |batches| <= c
      invariant |batches| < c <==> start < n
      invariant forall k :: 0 <= k < |batches| ==>
        batches[k] == BatchAt(n, batchSize, k)
      decreases c - |batches|
    {
      ghost var b := |batches|;
      if b > 0 {
        StartStrict(0, b, batchSize);
      }
      assert (start == 0) == (b == 0);
      var end := Min(n, start + batchSize);
      assert Batch(start, end, start == 0) == BatchAt(n, batchSize, b);
      batches := batches + [Batch(start, end, start == 0)];
      StartSucc(b, batchSize);
      start := start + batchSize;
      assert b < c;
      if b + 1 < c {
        StartMonotone(b + 1, c - 1, batchSize);
      }
    }
    if |batches| < c {
      StartMonotone(|batches|, c - 1, batchSize);
    }
  }

  lemma {:induction false} StartMonotone(j: int, k: int, step: int)
    requires 0 <= j <= k && step >= 0
    ensures Start(j, step) <= Start(k, step)
    decreases k - j
  {
    if j < k {
      StartSucc(k - 1, step);
      StartMonotone(j, k - 1, step);
    }
  }

  lemma StartStrict(j: int, k: int, step: int)
    requires 0 <= j < k && step >= 1
    ensures Start(j, step) < Start(k, step)
  {
    StartSucc(j, step);
    StartMonotone(j + 1, k, step);
  }

  /**
   * The batches tile `[0, n)`: every row index lies in exactly one batch,
   * and only the first batch passes `classes`.
   */
  lemma BatchesTile(n: nat, batchSize: int, batches: seq<Batch>, j: int)
    requires batchSize >= 1
    requires |batches| == GroupCount(n, batchSize)
    requires forall k :: 0 <= k < |batches| ==>
      batches[k] == BatchAt(n, batchSize, k)
    requires 0 <= j < n
    ensures exists k :: 0 <= k < |batches| && batches[k].start <= j < batches[k].end
    ensures forall k1, k2 ::
      (&& 0 <= k1 < |batches| && 0 <= k2 < |batches|
       && batches[k1].start <= j < batches[k1].end && batches[k2].start <= j < batches[k2].end) ==> k1 == k2
    ensures forall k :: 0 <= k < |batches| ==> (batches[k].withClasses <==> k == 0)
  {
    var m := |batches|;
    var k := 0;
    while k < m - 1 && Start(k + 1, batchSize) <= j
      invariant 0 <= k < m && Start(k, batchSize) <= j
      decreases m - k
    {
      k := k + 1;
    }
    StartSucc(k, batchSize);
    if k == m - 1 {
      assert j < n <= Start(m, batchSize);
    }
    assert batches[k].start <= j < batches[k].end;
    forall k1, k2 | 0 <= k1 < m && 0 <= k2 < m
      && batches[k1].start <= j < batches[k1].end && batches[k2].start <= j < batches[k2].end
      ensures k1 == k2
    {
      if k1 < k2 {
        StartSucc(k1, batchSize);
        StartMonotone(k1 + 1, k2, batchSize);
      } else if k2 < k1 {
        StartSucc(k2, batchSize);
        StartMonotone(k2 + 1, k1, batchSize);
      }
    }
  }
}
