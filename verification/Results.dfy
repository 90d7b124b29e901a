/** The histogram of outcomes of lib/litmus_test/litmus_test_results.c: a table with a lookup table
  * beside it that points straight at the rows of small outcomes.
  */
module Results {

  /** The values of the registers of a test, in one run. */
  type Outcome = seq<nat>

  /** The outcomes that the test highlights: interesting_results, or else interesting_result. */
  datatype Interesting = Listed(results: seq<Outcome>) | Single(result: Outcome) | NothingMarked

  function Marked(i: Interesting): seq<Outcome> {
    match i
    case Listed(results) => results
    case Single(result) => [result]
    case NothingMarked => []
  }

  /** The list of outcomes takes precedence over the single one. */
  lemma MarkedExactly(i: Interesting, o: Outcome)
    ensures o in Marked(i) <==> (i.Listed? && exists k :: 0 <= k < |i.results| && i.results[k] == o) || i == Single(o)
  {
  }

  /** A row of the table. */
  datatype Entry = Entry(values: Outcome, counter: nat, relaxed: bool)

  // ----- The index into the lookup table

  /** ix_from_values: the outcome as a number in base 4, or -1 if some value is not a digit. */
  function Index(o: Outcome): (ix: int)
    ensures -1 <= ix
  {
    if o == [] then 0
    else
      var ix, v := Index(o[..|o| - 1]), o[|o| - 1];
      if ix < 0 || 4 <= v then -1 else 4 * ix + v
  }

  function Pow4(n: nat): (p: nat)
    ensures 0 < p
  {
    if n == 0 then 1 else 4 * Pow4(n - 1)
  }

  /** Two outcomes of as many registers that have an index have different ones. */
  lemma {:induction false} IndexInjective(a: Outcome, b: Outcome)
    requires |a| == |b| && 0 <= Index(a) == Index(b)
    ensures a == b
  {
    if a != [] {
      var n := |a| - 1;
      IndexInjective(a[..n], b[..n]);
      assert a == a[..n] + [a[n]] && b == b[..n] + [b[n]];
    }
  }

  lemma {:induction false} IndexBelow(o: Outcome)
    ensures Index(o) < Pow4(|o|)
  {
    if o != [] {
      IndexBelow(o[..|o| - 1]);
    }
  }

  lemma {:induction false} LargestIndex(n: nat) returns (o: Outcome)
    ensures |o| == n && Index(o) == Pow4(n) - 1
  {
    o := [];
    if n > 0 {
      var rest := LargestIndex(n - 1);
      o := rest + [3];
      assert o[..n - 1] == rest;
    }
  }

  ghost predicate Fits(n: nat, limit: nat) {
    forall o: Outcome :: |o| == n ==> Index(o) < limit
  }

  /** The lookup table, which has as many entries as the histogram has rows, is large enough for
    * every outcome exactly when there are few registers: up to three for the 200 rows of
    * litmus_test_ctx.c. */
  lemma LookupFitsExactly(n: nat, limit: nat)
    ensures Fits(n, limit) <==> Pow4(n) <= limit
    ensures Fits(n, 200) <==> n <= 3
  {
    var o := LargestIndex(n);
    forall p: Outcome | |p| == n ensures Index(p) < Pow4(n) {
      IndexBelow(p);
    }
    assert Fits(n, 200) ==> Index(o) < 200;
    assert Pow4(3) == 64 && Pow4(4) == 256;
    if n <= 3 {
      Pow4Monotone(n, 3);
    } else {
      Pow4Monotone(4, n);
    }
  }

  lemma {:induction false} Pow4Monotone(j: nat, k: nat)
    requires j <= k
    ensures Pow4(j) <= Pow4(k)
    decreases k - j
  {
    if j < k {
      Pow4Monotone(j + 1, k);
    }
  }

  /** No outcome that begins with a value that is not a digit has an index. */
  lemma {:induction false} NoIndex(o: Outcome, k: nat)
    requires k < |o| && 4 <= o[k]
    ensures Index(o) == -1
  {
    if k < |o| - 1 {
      NoIndex(o[..|o| - 1], k);
    }
  }

  lemma {:induction false} HasIndex(o: Outcome)
    ensures 0 <= Index(o) <==> forall j :: 0 <= j < |o| ==> o[j] < 4
  {
    if o != [] {
      var n := |o| - 1;
      HasIndex(o[..n]);
      assert o == o[..n] + [o[n]];
    }
  }

  /** The values of an outcome that has an index are its digits in base 4, the first register's the
    * highest. */
  lemma {:induction false} IndexDigits(o: Outcome, k: nat)
    requires k < |o| && 0 <= Index(o)
    ensures Index(o) / Pow4(|o| - 1 - k) % 4 == o[k]
    decreases |o|
  {
    var n := |o| - 1;
    if k < n {
      IndexDigits(o[..n], k);
      ShiftDigits(Index(o[..n]), o[n], Pow4(n - 1 - k));
    }
  }

  lemma ShiftDigits(ix: nat, v: nat, p: nat)
    requires v < 4 && 0 < p
    ensures (4 * ix + v) / (4 * p) == ix / p
  {
    var q, r := ix / p, ix % p;
    assert ix == p * q + r;
    assert (4 * p) * q == 4 * (p * q);
    Quotient(4 * ix + v, 4 * p, q, 4 * r + v);
  }

  lemma MulMonotone(a: nat, b: nat, c: nat)
    requires b <= c
    ensures a * b <= a * c
  {
  }

  lemma Quotient(x: nat, d: nat, q: nat, r: nat)
    requires r < d && x == d * q + r
    ensures x / d == q
  {
    assert d * (x / d - q) == r - x % d;
    if x / d > q {
      MulMonotone(d, 1, x / d - q);
    } else if x / d < q {
      MulMonotone(d, 1, q - x / d);
    }
  }

  method IxFromValues(o: Outcome) returns (val: int)
    ensures val == Index(o)
  {
    val := 0;
    for reg := 0 to |o|
      invariant 0 <= val == Index(o[..reg])
    {
      var v := o[reg];
      assert o[..reg + 1][..reg] == o[..reg];
      if v < 4 {
        val := val * 4;
        val := val + v % 4;
      } else {
        NoIndex(o, reg);
        return -1;
      }
    }
    assert o[..|o|] == o;
  }

  // ----- Counting without a table

  /** The position of the first row of this outcome, or the number of rows. */
  function Row(es: seq<Entry>, o: Outcome): (k: nat)
    ensures k <= |es|
    ensures k < |es| ==> es[k].values == o
    ensures forall j :: 0 <= j < k ==> es[j].values != o
  {
    if es == [] then 0
    else if es[0].values == o then 0
    else 1 + Row(es[1..], o)
  }

  function Bumped(es: seq<Entry>, k: nat): (r: seq<Entry>)
    requires k < |es|
    ensures |r| == |es|
  {
    es[k := es[k].(counter := es[k].counter + 1)]
  }

  /** Counting one more run by going through the rows. */
  function AddLinear(es: seq<Entry>, o: Outcome, marked: seq<Outcome>): seq<Entry> {
    var k := Row(es, o);
    if k < |es| then Bumped(es, k) else es + [Entry(o, 1, o in marked)]
  }

  /** The rows after these runs. */
  function Histogram(runs: seq<Outcome>, marked: seq<Outcome>): seq<Entry> {
    if runs == [] then []
    else AddLinear(Histogram(runs[..|runs| - 1], marked), runs[|runs| - 1], marked)
  }

  function Count(runs: seq<Outcome>, o: Outcome): nat {
    if runs == [] then 0
    else Count(runs[..|runs| - 1], o) + if runs[|runs| - 1] == o then 1 else 0
  }

  function CountMarked(runs: seq<Outcome>, marked: seq<Outcome>): nat {
    if runs == [] then 0
    else CountMarked(runs[..|runs| - 1], marked) + if runs[|runs| - 1] in marked then 1 else 0
  }

  /** The sum of all counters, or of those of the marked rows. */
  function Total(es: seq<Entry>, onlyRelaxed: bool): nat {
    if es == [] then 0
    else Total(es[..|es| - 1], onlyRelaxed) + Weight(es[|es| - 1], onlyRelaxed)
  }

  function Weight(e: Entry, onlyRelaxed: bool): nat {
    if onlyRelaxed && !e.relaxed then 0 else e.counter
  }

  ghost predicate Distinct(es: seq<Entry>) {
    forall j, k :: 0 <= j < k < |es| ==> es[j].values != es[k].values
  }

  /** The row counts the runs that ended this way, and is marked if the test marks them. */
  ghost predicate RowRight(e: Entry, runs: seq<Outcome>, marked: seq<Outcome>) {
    && e.counter == Count(runs, e.values) > 0
    && (e.relaxed <==> e.values in marked)
  }

  /** No two rows are of the same outcome, each row is right, and no outcome is missing. */
  lemma {:induction false} HistogramRight(runs: seq<Outcome>, marked: seq<Outcome>)
    ensures var es := Histogram(runs, marked);
            && Distinct(es)
            && (forall k :: 0 <= k < |es| ==> RowRight(es[k], runs, marked))
            && (forall o :: Row(es, o) == |es| ==> Count(runs, o) == 0)
  {
    if runs != [] {
      var before, o := runs[..|runs| - 1], runs[|runs| - 1];
      HistogramRight(before, marked);
      AddedRight(Histogram(before, marked), before, o, runs, marked);
    }
  }

  lemma AddedRight(was: seq<Entry>, before: seq<Outcome>, o: Outcome, runs: seq<Outcome>, marked: seq<Outcome>)
    requires runs != [] && before == runs[..|runs| - 1] && o == runs[|runs| - 1]
    requires Distinct(was)
    requires forall k :: 0 <= k < |was| ==> RowRight(was[k], before, marked)
    requires forall p :: Row(was, p) == |was| ==> Count(before, p) == 0
    ensures var es := AddLinear(was, o, marked);
            && Distinct(es)
            && (forall k :: 0 <= k < |es| ==> RowRight(es[k], runs, marked))
            && (forall p :: Row(es, p) == |es| ==> Count(runs, p) == 0)
  {
    var es, m := AddLinear(was, o, marked), Row(was, o);
    forall k | 0 <= k < |es| ensures RowRight(es[k], runs, marked) {
      assert k < |was| ==> RowRight(was[k], before, marked);
      assert m < |was| && k != m ==> was[k].values != o;
    }
    forall p | Row(es, p) == |es| ensures Count(runs, p) == 0 {
      assert es[m].values == o;
      forall k | 0 <= k < |was| ensures was[k].values != p {
        assert es[k].values == was[k].values;
      }
    }
  }

  /** The counts in terms of the runs themselves. */
  lemma {:induction false} CountsAre(runs: seq<Outcome>, marked: seq<Outcome>, o: Outcome)
    ensures Count(runs, o) == multiset(runs)[o]
    ensures CountMarked(runs, marked) == |set k | 0 <= k < |runs| && runs[k] in marked|
  {
    var hits := set k | 0 <= k < |runs| && runs[k] in marked;
    if runs == [] {
      assert hits == {};
    } else {
      var n := |runs| - 1;
      var before := runs[..n];
      CountsAre(before, marked, o);
      assert runs == before + [runs[n]];
      var earlier := set k | 0 <= k < |before| && before[k] in marked;
      assert hits == earlier + if runs[n] in marked then {n} else {};
    }
  }

  /** No run is lost: the counters add up to the number of runs, and those of the marked rows to the
    * number of runs that ended in a marked outcome. */
  lemma {:induction false} HistogramTotals(runs: seq<Outcome>, marked: seq<Outcome>)
    ensures Total(Histogram(runs, marked), false) == |runs|
    ensures Total(Histogram(runs, marked), true) == CountMarked(runs, marked)
  {
    if runs != [] {
      var before, o := runs[..|runs| - 1], runs[|runs| - 1];
      HistogramTotals(before, marked);
      HistogramRight(before, marked);
      var es := Histogram(before, marked);
      var k := Row(es, o);
      if k < |es| {
        assert RowRight(es[k], before, marked);
        TotalUpdate(es, k, es[k].(counter := es[k].counter + 1), false);
        TotalUpdate(es, k, es[k].(counter := es[k].counter + 1), true);
      } else {
        var e := Entry(o, 1, o in marked);
        assert (es + [e])[..|es|] == es;
      }
    }
  }

  lemma {:induction false} TotalUpdate(es: seq<Entry>, k: nat, e: Entry, onlyRelaxed: bool)
    requires k < |es|
    ensures Total(es[k := e], onlyRelaxed) == Total(es, onlyRelaxed) - Weight(es[k], onlyRelaxed) + Weight(e, onlyRelaxed)
  {
    var n := |es| - 1;
    if k < n {
      assert es[k := e][..n] == es[..n][k := e];
      TotalUpdate(es[..n], k, e, onlyRelaxed);
    } else {
      assert es[k := e][..n] == es[..n];
    }
  }

  /** The outcomes that occur. */
  function Occurring(runs: seq<Outcome>): set<Outcome> {
    set o | o in runs
  }

  /** There are as many rows as different outcomes. */
  lemma {:induction false} RowsAreOutcomes(runs: seq<Outcome>, marked: seq<Outcome>)
    ensures |Histogram(runs, marked)| == |Occurring(runs)|
    ensures forall o :: o in runs <==> Row(Histogram(runs, marked), o) < |Histogram(runs, marked)|
  {
    if runs == [] {
      assert Occurring(runs) == {};
    } else {
      var before, o := runs[..|runs| - 1], runs[|runs| - 1];
      RowsAreOutcomes(before, marked);
      assert runs == before + [o];
      assert Occurring(runs) == Occurring(before) + {o};
      assert o in before <==> o in Occurring(before);
      var was, es := Histogram(before, marked), Histogram(runs, marked);
      assert es == AddLinear(was, o, marked);
      forall p ensures p in runs <==> Row(es, p) < |es| {
        AddedRows(was, o, marked, p);
      }
    }
  }

  lemma AddedRows(was: seq<Entry>, o: Outcome, marked: seq<Outcome>, p: Outcome)
    ensures var es := AddLinear(was, o, marked);
            Row(es, p) < |es| <==> Row(was, p) < |was| || p == o
  {
    var es, k, j := AddLinear(was, o, marked), Row(was, o), Row(was, p);
    assert es[k].values == o;
    if j < |was| {
      assert es[j].values == p;
    } else if p != o {
      forall m | 0 <= m < |es| ensures es[m].values != p {
        assert m < |was| ==> es[m].values == was[m].values;
      }
    }
  }

  // ----- The lookup table

  /** The position of the first row whose outcome has this index, or the number of rows. */
  function IndexRow(es: seq<Entry>, ix: nat): (k: nat)
    ensures k <= |es|
    ensures k < |es| ==> Index(es[k].values) == ix
    ensures forall j :: 0 <= j < k ==> Index(es[j].values) != ix
  {
    if es == [] then 0
    else if Index(es[0].values) == ix then 0
    else 1 + IndexRow(es[1..], ix)
  }

  /** The lookup table points at the row that going through the rows finds: outcomes of as many
    * registers that have the same index are the same. */
  lemma LookupIsRow(es: seq<Entry>, o: Outcome)
    requires forall k :: 0 <= k < |es| ==> |es[k].values| == |o|
    requires 0 <= Index(o)
    ensures IndexRow(es, Index(o)) == Row(es, o)
  {
    var j, k := IndexRow(es, Index(o)), Row(es, o);
    if j < |es| {
      IndexInjective(es[j].values, o);
    }
  }

  lemma IndexRowUpdate(es: seq<Entry>, k: nat, e: Entry, ix: nat)
    requires k < |es| && e.values == es[k].values
    ensures IndexRow(es[k := e], ix) == IndexRow(es, ix)
  {
    var i, j := IndexRow(es, ix), IndexRow(es[k := e], ix);
    assert i < |es| ==> Index(es[k := e][i].values) == ix;
  }

  lemma IndexRowAppend(es: seq<Entry>, e: Entry, ix: nat)
    ensures IndexRow(es + [e], ix) ==
            if IndexRow(es, ix) < |es| then IndexRow(es, ix) else if Index(e.values) == ix then |es| else |es| + 1
  {
    var i, j, more := IndexRow(es, ix), IndexRow(es + [e], ix), es + [e];
    assert i < |es| ==> Index(more[i].values) == ix;
    assert more[|es|] == e;
    assert j < |es| ==> Index(es[j].values) == ix;
  }

  // ----- The table in place

  /** test_result_t */
  class TestResult {
    var isRelaxed: bool
    var counter: nat
    var values: seq<nat>

    constructor (noRegs: nat)
      ensures |values| == noRegs
    {
      values := seq(noRegs, _ => 0);
    }

    function AsEntry(): Entry
      reads this
    {
      Entry(values, counter, isRelaxed)
    }
  }

  /** What the lookup table should hold for an index. */
  function RowPointer(es: seq<Entry>, rows: seq<TestResult>, ix: nat): TestResult?
    requires |es| <= |rows|
  {
    var k := IndexRow(es, ix);
    if k < |es| then rows[k] else null
  }

  lemma PointerAppend(es: seq<Entry>, rows: seq<TestResult>, e: Entry, ix: nat)
    requires |es| < |rows|
    ensures RowPointer(es + [e], rows, ix) ==
            if RowPointer(es, rows, ix) == null && Index(e.values) == ix then rows[|es|] else RowPointer(es, rows, ix)
  {
    IndexRowAppend(es, e, ix);
  }

  method AllocRows(noRegs: nat, limit: nat) returns (rs: array<TestResult>)
    ensures fresh(rs) && rs.Length == limit
    ensures forall j :: 0 <= j < limit ==> fresh(rs[j]) && |rs[j].values| == noRegs
    ensures forall j, k :: 0 <= j < k < limit ==> rs[j] != rs[k]
  {
    var spare := new TestResult(noRegs);
    rs := new TestResult[limit](_ => spare);
    for t := 0 to limit
      invariant fresh(rs) && fresh(spare) && forall j :: 0 <= j < limit ==> fresh(rs[j])
      invariant forall j :: 0 <= j < t ==> |rs[j].values| == noRegs && rs[j] != spare
      invariant forall j, k :: 0 <= j < k < t ==> rs[j] != rs[k]
    {
      rs[t] := new TestResult(noRegs);
    }
  }

  /** test_hist_t, for a test with noRegs registers */
  class Hist {
    const noRegs: nat
    const interesting: Interesting
    var used: nat
    const limit: nat
    const lut: array<TestResult?>
    const results: array<TestResult>
    ghost var contents: seq<Entry>

    ghost predicate Apart()
      reads results
    {
      && results.Length == lut.Length == limit
      && forall j, k :: 0 <= j < k < limit ==> results[j] != results[k]
    }

    ghost predicate RowsRight()
      requires Apart()
      reads this, results, results[..]
    {
      && used == |contents| <= limit
      && (forall k :: 0 <= k < limit ==> |results[k].values| == noRegs)
      && (forall k :: 0 <= k < used ==> results[k].AsEntry() == contents[k])
    }

    /** Every entry of the lookup table leads to the row with that index, if there is one. */
    ghost predicate LookupRight()
      requires Apart() && |contents| <= limit
      reads this, lut, results
    {
      forall ix :: 0 <= ix < limit ==> lut[ix] == RowPointer(contents, results[..], ix)
    }

    ghost predicate Valid()
      reads this, lut, results, results[..]
    {
      && Apart() && RowsRight() && LookupRight()
      && (forall o :: o in Marked(interesting) ==> |o| == noRegs)
    }

    /** The part of new_test_ctx that sets the histogram up. */
    constructor (noRegs: nat, interesting: Interesting, limit: nat)
      requires forall o :: o in Marked(interesting) ==> |o| == noRegs
      ensures Valid() && contents == [] && this.limit == limit
      ensures this.noRegs == noRegs && this.interesting == interesting
      ensures fresh(lut) && fresh(results) && forall j :: 0 <= j < limit ==> fresh(results[j])
    {
      this.noRegs, this.interesting, this.limit, used, contents := noRegs, interesting, limit, 0, [];
      lut := new TestResult?[limit](_ => null);
      var rows := AllocRows(noRegs, limit);
      results := rows;
    }

    /** matches: the run ended as this row says. */
    method Matches(result: TestResult, run: Outcome) returns (same: bool)
      requires |run| == |result.values|
      ensures same == (result.values == run)
    {
      for reg := 0 to |run|
        invariant result.values[..reg] == run[..reg]
      {
        if result.values[reg] != run[reg] {
          return false;
        }
      }
      return true;
    }

    /** matches_interesting */
    method MatchesInteresting(r: TestResult) returns (was: bool)
      requires |r.values| == noRegs && forall o :: o in Marked(interesting) ==> |o| == noRegs
      ensures was == (r.values in Marked(interesting))
    {
      var relaxed := Marked(interesting);
      for i := 0 to |relaxed|
        invariant r.values !in relaxed[..i]
      {
        var regs, wasInteresting := relaxed[i], true;
        for reg := 0 to noRegs
          invariant wasInteresting == (r.values[..reg] == regs[..reg])
        {
          if r.values[reg] != regs[reg] {
            wasInteresting := false;
          }
        }
        assert r.values[..noRegs] == r.values && regs[..noRegs] == regs;
        if wasInteresting {
          return true;
        }
      }
      return false;
    }

    /** One more run ended as this row says. */
    method Bump(row: TestResult, ghost k: nat)
      requires Valid() && k < used && row == results[k]
      modifies this`contents, results[..]
      ensures Valid() && contents == Bumped(old(contents), k)
    {
      row.counter := row.counter + 1;
      contents := Bumped(contents, k);
      forall ix | 0 <= ix < limit ensures IndexRow(contents, ix) == IndexRow(old(contents), ix) {
        IndexRowUpdate(old(contents), k, contents[k], ix);
      }
    }

    /** The first row of this outcome, if there is one. */
    method FindRow(run: Outcome) returns (i: nat)
      requires Valid() && |run| == noRegs
      ensures i == Row(contents, run)
    {
      i := 0;
      while i < used
        invariant i <= used && forall j :: 0 <= j < i ==> contents[j].values != run
      {
        assert results[i].AsEntry() == contents[i];
        var same := Matches(results[i], run);
        if same {
          return;
        }
        i := i + 1;
      }
    }

    /** Writes the row after the last one. */
    method FillRow(run: Outcome)
      requires Valid() && |run| == noRegs && used < limit
      modifies results[used]
      ensures Valid() && results[used].AsEntry() == Entry(run, 1, run in Marked(interesting))
    {
      var row := results[used];
      for reg := 0 to noRegs
        invariant |row.values| == noRegs && row.values[..reg] == run[..reg]
      {
        row.values := row.values[reg := run[reg]];
      }
      assert row.values == row.values[..noRegs] == run[..noRegs] == run;
      row.counter := 1;
      row.isRelaxed := MatchesInteresting(row);
    }

    /** The row after the last one comes into use. */
    method Publish(ix: int, ghost e: Entry)
      requires Valid() && used < limit && e == results[used].AsEntry()
      requires ix == Index(e.values) < limit && (ix != -1 ==> IndexRow(contents, ix) == |contents|)
      modifies this`used, this`contents, lut
      ensures Valid() && contents == old(contents) + [e]
    {
      forall j | 0 <= j < limit
        ensures RowPointer(contents + [e], results[..], j) ==
                if j == ix then results[used] else RowPointer(contents, results[..], j)
      {
        PointerAppend(contents, results[..], e, j);
      }
      if ix != -1 {
        lut[ix] := results[used];
      }
      used := used + 1;
      contents := contents + [e];
    }

    method Insert(run: Outcome, ix: int)
      requires Valid() && |run| == noRegs && used < limit
      requires ix == Index(run) < limit && (ix != -1 ==> IndexRow(contents, ix) == |contents|)
      modifies this`used, this`contents, lut, results[..]
      ensures Valid() && contents == old(contents) + [Entry(run, 1, run in Marked(interesting))]
    {
      FillRow(run);
      Publish(ix, Entry(run, 1, run in Marked(interesting)));
    }

    /** The fast case: a row that the lookup table leads to is counted up. */
    method CountFast(run: Outcome, ix: int) returns (found: bool)
      requires Valid() && |run| == noRegs && ix == Index(run) < limit
      modifies this`contents, results[..]
      ensures Valid() && (found ==> contents == AddLinear(old(contents), run, Marked(interesting)))
      ensures !found ==> contents == old(contents) && (ix != -1 ==> IndexRow(contents, ix) == |contents|)
      ensures found ==> Row(old(contents), run) < |old(contents)|
    {
      if ix == -1 || lut[ix] == null {
        return false;
      }
      RowLengths();
      LookupIsRow(contents, run);
      Bump(lut[ix], IndexRow(contents, ix));
      return true;
    }

    lemma RowLengths()
      requires Valid()
      ensures forall k :: 0 <= k < |contents| ==> |contents[k].values| == noRegs
    {
      forall k | 0 <= k < |contents| ensures |contents[k].values| == noRegs {
        assert results[k].AsEntry() == contents[k];
      }
    }

    /** The slow case: all rows are gone through. */
    method CountSlow(run: Outcome, ix: int) returns (ok: bool)
      requires Valid() && |run| == noRegs && ix == Index(run) < limit
      requires ix != -1 ==> IndexRow(contents, ix) == |contents|
      modifies this`used, this`contents, lut, results[..]
      ensures ok == (Row(old(contents), run) < |old(contents)| || |old(contents)| < limit)
      ensures ok ==> Valid() && contents == AddLinear(old(contents), run, Marked(interesting))
    {
      var i := FindRow(run);
      if i < used {
        Bump(results[i], i);
        return true;
      }
      if used >= limit {
        return false;
      }
      Insert(run, ix);
      return true;
    }

    /** add_results: with the lookup table the rows become what they become without one; it stops the
      * machine exactly when the outcome is new and the table full. */
    method AddResults(run: Outcome) returns (ok: bool)
      requires Valid() && |run| == noRegs && Index(run) < limit
      modifies this`used, this`contents, lut, results[..]
      ensures ok == (Row(old(contents), run) < |old(contents)| || |old(contents)| < limit)
      ensures ok ==> Valid() && contents == AddLinear(old(contents), run, Marked(interesting))
    {
      var ix := IxFromValues(run);
      ok := CountFast(run, ix);
      if !ok {
        ok := CountSlow(run, ix);
      }
    }

    /** The results of a whole test, one run after the other.  It stops the machine exactly when there
      * are more different outcomes than rows. */
    method AddAll(runs: seq<Outcome>) returns (ok: bool)
      requires Valid() && contents == []
      requires forall o :: o in runs ==> |o| == noRegs && Index(o) < limit
      modifies this`used, this`contents, lut, results[..]
      ensures ok <==> |Occurring(runs)| <= limit
      ensures ok ==> Valid() && contents == Histogram(runs, Marked(interesting))
    {
      for r := 0 to |runs|
        invariant Valid() && contents == Histogram(runs[..r], Marked(interesting))
      {
        assert runs[..r + 1][..r] == runs[..r];
        RowsAreOutcomes(runs[..r], Marked(interesting));
        RowsAreOutcomes(runs[..r + 1], Marked(interesting));
        ok := AddResults(runs[r]);
        if !ok {
          MoreOutcomes(runs[..r + 1], runs);
          return;
        }
      }
      assert runs[..|runs|] == runs;
      RowsAreOutcomes(runs, Marked(interesting));
      return true;
    }

    /** print_results_herd, without the printing */
    method Totals() returns (marked: nat, totalCount: nat, observation: Observation)
      requires Valid()
      ensures marked == Total(contents, true) && totalCount == Total(contents, false)
      ensures observation == (if marked == 0 then Never else if marked == totalCount then Always else Sometimes)
    {
      marked, totalCount := 0, 0;
      for r := 0 to used
        invariant marked == Total(contents[..r], true) && totalCount == Total(contents[..r], false)
      {
        assert contents[..r + 1][..r] == contents[..r] && results[r].AsEntry() == contents[r];
        totalCount := totalCount + results[r].counter;
        if results[r].isRelaxed {
          marked := marked + results[r].counter;
        }
      }
      assert contents[..used] == contents;
      observation := if marked == 0 then Never else if marked == totalCount then Always else Sometimes;
    }
  }

  datatype Observation = Never | Always | Sometimes

  lemma MoreOutcomes(some: seq<Outcome>, runs: seq<Outcome>)
    requires some <= runs
    ensures |Occurring(some)| <= |Occurring(runs)|
  {
    assert Occurring(some) <= Occurring(runs);
    SubsetSmaller(Occurring(some), Occurring(runs));
  }

  lemma SubsetSmaller<T>(a: set<T>, b: set<T>)
    requires a <= b
    ensures |a| <= |b|
  {
    assert b == a + (b - a);
  }

  lemma {:induction false} MarkedOrNot(runs: seq<Outcome>, marked: seq<Outcome>)
    ensures CountMarked(runs, marked) <= |runs|
    ensures CountMarked(runs, marked) == 0 <==> forall o :: o in runs ==> o !in marked
    ensures CountMarked(runs, marked) == |runs| <==> forall o :: o in runs ==> o in marked
  {
    if runs != [] {
      MarkedOrNot(runs[..|runs| - 1], marked);
      assert runs == runs[..|runs| - 1] + [runs[|runs| - 1]];
    }
  }

  /** What is reported about the test is true of its runs. */
  method Report(noRegs: nat, interesting: Interesting, limit: nat, runs: seq<Outcome>)
    returns (ok: bool, positive: nat, negative: nat, observation: Observation)
    requires forall o :: o in Marked(interesting) || o in runs ==> |o| == noRegs
    requires forall o :: o in runs ==> Index(o) < limit
    ensures ok <==> |Occurring(runs)| <= limit
    ensures ok ==> positive == CountMarked(runs, Marked(interesting)) && positive + negative == |runs|
    ensures ok && observation == Never ==> forall o :: o in runs ==> o !in Marked(interesting)
    ensures ok && observation == Always ==> forall o :: o in runs ==> o in Marked(interesting)
    ensures ok && observation == Sometimes ==>
      (exists o :: o in runs && o in Marked(interesting)) && (exists o :: o in runs && o !in Marked(interesting))
  {
    var hist := new Hist(noRegs, interesting, limit);
    ok := hist.AddAll(runs);
    positive, negative, observation := 0, 0, Never;
    if ok {
      var total;
      positive, total, observation := hist.Totals();
      HistogramTotals(runs, Marked(interesting));
      MarkedOrNot(runs, Marked(interesting));
      negative := total - positive;
    }
  }
}
