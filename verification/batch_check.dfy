/** The batch-output check: reconciles the terms that were sent against the
    records the batch returned and lists every term with a problem, in input
    order, with the problems found. */
module BatchCheck {
  import opened Wrappers
  import opened Terms

  /** One record of the batch output. */
  datatype BatchResult = BatchResult(number: string, nameJa: string, categories: seq<string>)

  /** What can be wrong with a term's result. */
  datatype Cause = NoBatchResult | MissingTranslation | NoCategories

  /** An entry of the error report: the original term and its causes. */
  datatype ErrorEntry = ErrorEntry(term: Term, causes: seq<Cause>)

  /** The text written for each cause. */
  function CauseMessage(c: Cause): (m: string)
    ensures m != ""
  {
    match c
    case NoBatchResult => "No batch result found"
    case MissingTranslation => "Missing Japanese name translation"
    case NoCategories => "No categories assigned"
  }

  lemma CauseMessageInjective(a: Cause, b: Cause)
    requires a != b
    ensures CauseMessage(a) != CauseMessage(b)
  {
  }

  function CauseMessages(cs: seq<Cause>): (r: seq<string>)
    ensures |r| == |cs|
    ensures forall i :: 0 <= i < |cs| ==> r[i] == CauseMessage(cs[i])
  {
    seq(|cs|, i requires 0 <= i < |cs| => CauseMessage(cs[i]))
  }

  /** The first result carrying `number`, if any: later duplicates are
      ignored. */
  function FindResult(results: seq<BatchResult>, number: string): (r: Option<BatchResult>)
    decreases |results|
    ensures r.None? <==> forall k :: 0 <= k < |results| ==> results[k].number != number
    ensures r.Some? ==> exists k :: 0 <= k < |results| && results[k] == r.value
                                 && results[k].number == number
                                 && forall j :: 0 <= j < k ==> results[j].number != number
  {
    if |results| == 0 then None
    else if results[0].number == number then Some(results[0])
    else
      var r := FindResult(results[1..], number);
      assert forall k :: 1 <= k < |results| ==> results[k] == results[1..][k - 1];
      r
  }

  /** The causes reported for a term given the result found for it. */
  function CausesOf(found: Option<BatchResult>): (cs: seq<Cause>)
    ensures found.None? ==> cs == [NoBatchResult]
    ensures found.Some? ==> NoBatchResult !in cs
    ensures found.Some? ==> (MissingTranslation in cs <==> found.value.nameJa == "")
    ensures found.Some? ==> (NoCategories in cs <==> |found.value.categories| == 0)
    ensures |cs| <= 2
    ensures |cs| == 2 ==> cs == [MissingTranslation, NoCategories]
  {
    match found
    case None => [NoBatchResult]
    case Some(res) =>
      (if res.nameJa == "" then [MissingTranslation] else [])
      + (if |res.categories| == 0 then [NoCategories] else [])
  }

  function CausesFor(t: Term, results: seq<BatchResult>): seq<Cause> {
    CausesOf(FindResult(results, t.number))
  }

  /** The check: every term with at least one cause, with its causes, in
      input order; clean terms are left out. */
  function CheckBatchOutput(terms: seq<Term>, results: seq<BatchResult>): seq<ErrorEntry>
    decreases |terms|
  {
    if |terms| == 0 then []
    else
      var t := terms[|terms| - 1];
      var cs := CausesFor(t, results);
      var prefix := CheckBatchOutput(terms[..|terms| - 1], results);
      if cs == [] then prefix else prefix + [ErrorEntry(t, cs)]
  }

  /** The report holds no more entries than there are terms; each entry
      is an input term with its own, non-empty list of causes; and every
      input term with a problem is reported. */
  lemma {:induction false} CheckBatchOutputEntries(terms: seq<Term>, results: seq<BatchResult>)
    decreases |terms|
    ensures var r := CheckBatchOutput(terms, results);
      && |r| <= |terms|
      && (forall k :: 0 <= k < |r| ==>
            r[k].term in terms && r[k].causes != [] && r[k].causes == CausesFor(r[k].term, results))
      && (forall t :: t in terms && CausesFor(t, results) != [] ==> ErrorEntry(t, CausesFor(t, results)) in r)
  {
    if |terms| > 0 {
      var init := terms[..|terms| - 1];
      var t := terms[|terms| - 1];
      CheckBatchOutputEntries(init, results);
      assert terms == init + [t];
      CheckBatchOutputSnoc(init, t, results);
      assert forall u :: u in terms <==> u in init || u == t;
    }
  }

  /** Checking one more term appends its entry, if it has a problem, and
      leaves the earlier entries alone. */
  lemma CheckBatchOutputSnoc(terms: seq<Term>, t: Term, results: seq<BatchResult>)
    ensures CheckBatchOutput(terms + [t], results)
            == CheckBatchOutput(terms, results)
               + (if CausesFor(t, results) == [] then [] else [ErrorEntry(t, CausesFor(t, results))])
  {
    assert (terms + [t])[..|terms|] == terms;
  }

  /** The positions below `n` of the terms that have a problem, in
      increasing order. */
  function ProblemPositions(terms: seq<Term>, results: seq<BatchResult>, n: nat): (pos: seq<nat>)
    requires n <= |terms|
    decreases n
    ensures forall k :: 0 <= k < |pos| ==> pos[k] < n
    ensures forall k, l :: 0 <= k < l < |pos| ==> pos[k] < pos[l]
    ensures forall i :: 0 <= i < n ==> (i in pos <==> CausesFor(terms[i], results) != [])
  {
    if n == 0 then []
    else
      var prev := ProblemPositions(terms, results, n - 1);
      if CausesFor(terms[n - 1], results) == [] then prev else prev + [n - 1]
  }

  /** Entry `k` of `r` is the term at position `pos[k]`. */
  predicate EntriesAt(r: seq<ErrorEntry>, terms: seq<Term>, pos: seq<nat>) {
    |r| == |pos| && forall k :: 0 <= k < |r| ==> pos[k] < |terms| && r[k].term == terms[pos[k]]
  }

  lemma EntriesAtExtend(r: seq<ErrorEntry>, terms: seq<Term>, pos: seq<nat>, p: nat, cs: seq<Cause>)
    requires EntriesAt(r, terms, pos) && p < |terms|
    ensures EntriesAt(r + [ErrorEntry(terms[p], cs)], terms, pos + [p])
  {
    var r' := r + [ErrorEntry(terms[p], cs)];
    var pos' := pos + [p];
    forall k | 0 <= k < |r'|
      ensures pos'[k] < |terms| && r'[k].term == terms[pos'[k]]
    {
      if k < |r| {
        assert r'[k] == r[k] && pos'[k] == pos[k];
      }
    }
  }

  lemma {:induction false} CheckPrefixAtPositions(terms: seq<Term>, results: seq<BatchResult>, n: nat)
    requires n <= |terms|
    decreases n
    ensures EntriesAt(CheckBatchOutput(terms[..n], results), terms, ProblemPositions(terms, results, n))
  {
    if n > 0 {
      CheckPrefixAtPositions(terms, results, n - 1);
      var t := terms[n - 1];
      var cs := CausesFor(t, results);
      assert terms[..n] == terms[..n - 1] + [t];
      CheckBatchOutputSnoc(terms[..n - 1], t, results);
      if cs != [] {
        EntriesAtExtend(CheckBatchOutput(terms[..n - 1], results), terms,
                        ProblemPositions(terms, results, n - 1), n - 1, cs);
      }
    }
  }

  /** The report keeps input order: its entries are the terms at the
      problem positions, which increase strictly and include every term
      that has a problem. */
  lemma CheckBatchOutputOrder(terms: seq<Term>, results: seq<BatchResult>)
    ensures var r := CheckBatchOutput(terms, results);
            var pos := ProblemPositions(terms, results, |terms|);
            |r| == |pos| && forall k :: 0 <= k < |r| ==> r[k].term == terms[pos[k]]
  {
    CheckPrefixAtPositions(terms, results, |terms|);
    assert terms[..|terms|] == terms;
  }

  /** With no batch output at all, every term is reported as missing. */
  lemma {:induction false} CheckWithoutResults(terms: seq<Term>)
    decreases |terms|
    ensures CheckBatchOutput(terms, []) ==
            seq(|terms|, i requires 0 <= i < |terms| => ErrorEntry(terms[i], [NoBatchResult]))
  {
    if |terms| > 0 {
      CheckWithoutResults(terms[..|terms| - 1]);
    }
  }

  /** The report is empty exactly when the first result for every term
      exists and has both a translation and categories; results for other
      numbers and later duplicates play no part. */
  lemma {:induction false} CheckAllClean(terms: seq<Term>, results: seq<BatchResult>)
    decreases |terms|
    ensures CheckBatchOutput(terms, results) == [] <==>
            forall t :: t in terms ==>
              && FindResult(results, t.number).Some?
              && FindResult(results, t.number).value.nameJa != ""
              && |FindResult(results, t.number).value.categories| > 0
  {
    if |terms| > 0 {
      var init, last := terms[..|terms| - 1], terms[|terms| - 1];
      assert terms == init + [last];
      assert forall u :: u in terms <==> u in init || u == last;
      CheckAllClean(init, results);
      CheckBatchOutputSnoc(init, last, results);
    }
  }

  /** Checking a concatenation is concatenating the checks: each term's
      entry depends on that term and the results alone. */
  lemma {:induction false} CheckBatchOutputAppend(a: seq<Term>, b: seq<Term>, results: seq<BatchResult>)
    decreases |b|
    ensures CheckBatchOutput(a + b, results) == CheckBatchOutput(a, results) + CheckBatchOutput(b, results)
  {
    if |b| == 0 {
      assert a + b == a;
    } else {
      var init, last := b[..|b| - 1], b[|b| - 1];
      assert a + b == (a + init) + [last];
      assert b == init + [last];
      CheckBatchOutputAppend(a, init, results);
      CheckBatchOutputSnoc(a + init, last, results);
      CheckBatchOutputSnoc(init, last, results);
    }
  }

  /** A result with neither a translation nor categories yields both
      causes, translation first. */
  lemma CheckBothMissing(t: Term, results: seq<BatchResult>)
    requires FindResult(results, t.number) == Some(BatchResult(t.number, "", []))
    ensures CheckBatchOutput([t], results) == [ErrorEntry(t, [MissingTranslation, NoCategories])]
  {
    assert [t][..0] == [];
  }

  function Lookup(index: map<string, BatchResult>, number: string): Option<BatchResult> {
    if number in index then Some(index[number]) else None
  }

  /** Appending a record changes a lookup only when no earlier record had
      that number. */
  lemma {:induction false} FindResultAppend(results: seq<BatchResult>, x: BatchResult, number: string)
    decreases |results|
    ensures FindResult(results + [x], number)
            == if FindResult(results, number).Some? then FindResult(results, number)
               else if x.number == number then Some(x) else None
  {
    if |results| > 0 {
      assert (results + [x])[1..] == results[1..] + [x];
      FindResultAppend(results[1..], x, number);
    }
  }

  /** Builds the number-to-result map in one pass, keeping the first record
      for each number. */
  method IndexResults(results: seq<BatchResult>) returns (index: map<string, BatchResult>)
    ensures forall number :: Lookup(index, number) == FindResult(results, number)
  {
    index := map[];
    var i := 0;
    while i < |results|
      invariant 0 <= i <= |results|
      invariant forall number :: Lookup(index, number) == FindResult(results[..i], number)
    {
      var x := results[i];
      forall number
        ensures FindResult(results[..i + 1], number)
                == if FindResult(results[..i], number).Some? then FindResult(results[..i], number)
                   else if x.number == number then Some(x) else None
      {
        assert results[..i + 1] == results[..i] + [x];
        FindResultAppend(results[..i], x, number);
      }
      var before := index;
      if x.number !in index {
        index := index[x.number := x];
      }
      forall number
        ensures Lookup(index, number) == FindResult(results[..i + 1], number)
      {
        assert Lookup(before, number) == FindResult(results[..i], number);
      }
      i := i + 1;
    }
    assert results[..|results|] == results;
  }

  /** The check with the results indexed by number up front, so that each
      term costs one map lookup instead of a scan of the results; it
      produces exactly the report of `CheckBatchOutput`. */
  method CheckBatchOutputIndexed(terms: seq<Term>, results: seq<BatchResult>) returns (report: seq<ErrorEntry>)
    ensures report == CheckBatchOutput(terms, results)
  {
    var index := IndexResults(results);
    report := [];
    var j := 0;
    while j < |terms|
      invariant 0 <= j <= |terms|
      invariant report == CheckBatchOutput(terms[..j], results)
    {
      var t := terms[j];
      var cs := CausesOf(Lookup(index, t.number));
      assert cs == CausesFor(t, results);
      ghost var next := terms[..j + 1];
      assert next[..j] == terms[..j] && next[j] == t;
      assert CheckBatchOutput(next, results)
             == if cs == [] then CheckBatchOutput(terms[..j], results)
                else CheckBatchOutput(terms[..j], results) + [ErrorEntry(t, cs)];
      if cs != [] {
        report := report + [ErrorEntry(t, cs)];
      }
      j := j + 1;
    }
    assert terms[..|terms|] == terms;
  }
}
