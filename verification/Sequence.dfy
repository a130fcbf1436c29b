/** Wrapping 24-bit sequence numbers and the run-length receive history. */
module Sequence {
  import opened Wrappers
  import opened Bytes

  const MODULUS := 0x100_0000
  const HALF_RANGE := 0x80_0000

  function Next(s: u24): u24 { if s + 1 == MODULUS then 0 else s + 1 }

  function Previous(s: u24): u24 { if s == 0 then MODULUS - 1 else s - 1 }

  /** The subtraction modulo 2^24 of `wrapping_sub` under the 24-bit mask. */
  function Distance(newer: u24, older: u24): u24 {
    if older <= newer then newer - older else newer - older + MODULUS
  }

  predicate IsNewer(s: u24, other: u24) {
    0 < Distance(s, other) < HALF_RANGE
  }

  /** `s` advanced by `n` successors. */
  function Advance(s: u24, n: nat): u24 {
    if n == 0 then s else Next(Advance(s, n - 1))
  }

  /** The 24-bit number that represents an unbounded counter. */
  function Wrap(n: nat): u24 { n % MODULUS }

  lemma WrapStep(n: nat)
    ensures Wrap(n + 1) == Next(Wrap(n))
  {
    var q, r := n / MODULUS, n % MODULUS;
    assert n + 1 == q * MODULUS + (r + 1);
    if r + 1 == MODULUS {
      assert n + 1 == (q + 1) * MODULUS;
    }
  }

  // ---- Run-length history ----

  datatype SequenceRun = SequenceRun(first: u24, length: nat)

  function Last(r: SequenceRun): u24
    requires 0 < r.length
  {
    Advance(r.first, r.length - 1)
  }

  /** The sequences of one run, in order. */
  function Expand(r: SequenceRun): (s: seq<u24>)
    ensures |s| == r.length
    decreases r.length
  {
    if r.length == 0 then []
    else Expand(SequenceRun(r.first, r.length - 1)) + [Advance(r.first, r.length - 1)]
  }

  function Sequences(runs: seq<SequenceRun>): seq<u24> {
    if runs == [] then [] else Sequences(runs[..|runs| - 1]) + Expand(runs[|runs| - 1])
  }

  function TotalLength(runs: seq<SequenceRun>): nat {
    if runs == [] then 0 else TotalLength(runs[..|runs| - 1]) + runs[|runs| - 1].length
  }

  predicate FitsOneCycle(r: SequenceRun) { 1 <= r.length <= MODULUS }

  /** Two neighbouring runs could be merged only if the first is full. */
  predicate KeptApart(first: SequenceRun, second: SequenceRun)
    requires FitsOneCycle(first)
  {
    second.first == Next(Last(first)) ==> first.length == MODULUS
  }

  ghost predicate Canonical(runs: seq<SequenceRun>) {
    && (forall i :: 0 <= i < |runs| ==> FitsOneCycle(runs[i]))
    && (forall i, j :: 0 <= i && j == i + 1 && j < |runs| ==> KeptApart(runs[i], runs[j]))
  }

  lemma {:induction false} CountIsLength(runs: seq<SequenceRun>)
    ensures |Sequences(runs)| == TotalLength(runs)
  {
    if runs != [] {
      CountIsLength(runs[..|runs| - 1]);
    }
  }

  /** What one more arrival does to a canonical history. */
  function Record(runs: seq<SequenceRun>, s: u24): (r: seq<SequenceRun>)
    requires Canonical(runs)
    ensures Canonical(r)
  {
    if runs != [] && s == Next(Last(runs[|runs| - 1])) && runs[|runs| - 1].length < MODULUS then
      runs[..|runs| - 1] + [SequenceRun(runs[|runs| - 1].first, runs[|runs| - 1].length + 1)]
    else
      runs + [SequenceRun(s, 1)]
  }

  function History(s: seq<u24>): (r: seq<SequenceRun>)
    ensures Canonical(r)
  {
    if s == [] then [] else Record(History(s[..|s| - 1]), s[|s| - 1])
  }

  lemma HistorySnoc(s: seq<u24>, next: u24)
    ensures History(s + [next]) == Record(History(s), next)
  {
    assert (s + [next])[..|s|] == s;
  }

  lemma SequencesSnoc(runs: seq<SequenceRun>, r: SequenceRun)
    ensures Sequences(runs + [r]) == Sequences(runs) + Expand(r)
  {
    assert (runs + [r])[..|runs|] == runs;
  }

  lemma ExpandGrows(r: SequenceRun)
    requires 0 < r.length
    ensures Expand(SequenceRun(r.first, r.length + 1)) == Expand(r) + [Next(Last(r))]
  {
  }

  lemma RecordLast(runs: seq<SequenceRun>, s: u24)
    requires Canonical(runs)
    ensures Record(runs, s) != [] && Last(Record(runs, s)[|Record(runs, s)| - 1]) == s
  {
  }

  /** The last run ends at the last arrival. */
  lemma HistoryLast(s: seq<u24>)
    ensures s == [] <==> History(s) == []
    ensures s != [] ==> Last(History(s)[|History(s)| - 1]) == s[|s| - 1]
  {
    if s != [] {
      RecordLast(History(s[..|s| - 1]), s[|s| - 1]);
    }
  }

  lemma {:induction false} RecordExpands(runs: seq<SequenceRun>, s: u24)
    requires Canonical(runs)
    ensures Sequences(Record(runs, s)) == Sequences(runs) + [s]
  {
    if |Record(runs, s)| == |runs| {
      var init, last := runs[..|runs| - 1], runs[|runs| - 1];
      assert runs == init + [last];
      SequencesSnoc(init, last);
      SequencesSnoc(init, SequenceRun(last.first, last.length + 1));
      ExpandGrows(last);
    } else {
      SequencesSnoc(runs, SequenceRun(s, 1));
      assert Expand(SequenceRun(s, 1)) == [s];
    }
  }

  /** The history loses nothing: it expands to the recorded arrivals, in order. */
  lemma {:induction false} HistoryIsLossless(s: seq<u24>)
    ensures Sequences(History(s)) == s
    ensures TotalLength(History(s)) == |s|
  {
    if s != [] {
      var init := s[..|s| - 1];
      HistoryIsLossless(init);
      RecordExpands(History(init), s[|s| - 1]);
      assert s == init + [s[|s| - 1]];
    }
    CountIsLength(History(s));
  }

  lemma RecordStarts(init: seq<SequenceRun>, run: SequenceRun)
    requires Canonical(init) && Canonical(init + [run])
    ensures Record(init, run.first) == init + [SequenceRun(run.first, 1)]
  {
    if init != [] {
      assert KeptApart((init + [run])[|init| - 1], (init + [run])[|init|]);
    }
  }

  lemma RecordGrows(init: seq<SequenceRun>, last: SequenceRun)
    requires Canonical(init + [last]) && 0 < last.length < MODULUS
    ensures Record(init + [last], Next(Last(last))) == init + [SequenceRun(last.first, last.length + 1)]
  {
    assert (init + [last])[..|init|] == init;
  }

  lemma LastFits(init: seq<SequenceRun>, run: SequenceRun)
    requires Canonical(init + [run])
    ensures FitsOneCycle(run)
  {
    assert FitsOneCycle((init + [run])[|init|]);
  }

  lemma RunStarts(before: seq<u24>, init: seq<SequenceRun>, run: SequenceRun)
    requires Canonical(init + [run]) && History(before) == init
    ensures History(before + Expand(SequenceRun(run.first, 1))) == init + [SequenceRun(run.first, 1)]
  {
    assert Expand(SequenceRun(run.first, 1)) == [run.first];
    HistorySnoc(before, run.first);
    RecordStarts(init, run);
  }

  lemma RunGrows(before: seq<u24>, init: seq<SequenceRun>, run: SequenceRun, longer: SequenceRun)
    requires 0 < run.length < MODULUS && longer == SequenceRun(run.first, run.length + 1)
    requires History(before + Expand(run)) == init + [run]
    ensures History(before + Expand(longer)) == init + [longer]
  {
    ExpandGrows(run);
    Assoc(before, Expand(run), [Next(Last(run))]);
    HistorySnoc(before + Expand(run), Next(Last(run)));
    RecordGrows(init, run);
  }

  /** Recording a run's members after a canonical prefix rebuilds that run. */
  lemma {:induction false} HistoryRebuildsRun(init: seq<SequenceRun>, run: SequenceRun, n: nat, part: SequenceRun)
    requires Canonical(init + [run]) && 1 <= n <= run.length && part == SequenceRun(run.first, n)
    requires History(Sequences(init)) == init
    ensures History(Sequences(init) + Expand(part)) == init + [part]
    decreases n
  {
    LastFits(init, run);
    if n == 1 {
      RunStarts(Sequences(init), init, run);
    } else {
      var shorter := SequenceRun(run.first, n - 1);
      HistoryRebuildsRun(init, run, n - 1, shorter);
      RunGrows(Sequences(init), init, shorter, part);
    }
  }

  /** The canonical form is unique: a canonical run list is the history of its own expansion. */
  lemma {:induction false} CanonicalIsHistory(runs: seq<SequenceRun>)
    requires Canonical(runs)
    ensures History(Sequences(runs)) == runs
  {
    if runs != [] {
      var init, last := runs[..|runs| - 1], runs[|runs| - 1];
      assert runs == init + [last];
      assert Canonical(init) by {
        assert forall i :: 0 <= i < |init| ==> init[i] == runs[i];
      }
      CanonicalIsHistory(init);
      HistoryRebuildsRun(init, last, last.length, last);
    }
  }

  lemma HistoryStep(sequences: seq<u24>, i: nat)
    requires i < |sequences|
    ensures History(sequences[..i + 1]) == Record(History(sequences[..i]), sequences[i])
    ensures i == 0 <==> History(sequences[..i]) == []
    ensures i > 0 ==> Last(History(sequences[..i])[|History(sequences[..i])| - 1]) == sequences[i - 1]
  {
    assert sequences[..i + 1] == sequences[..i] + [sequences[i]];
    HistorySnoc(sequences[..i], sequences[i]);
    HistoryLast(sequences[..i]);
  }

  /** Builds the history in one pass, growing the last run in place. */
  method FromSequences(sequences: seq<u24>) returns (runs: seq<SequenceRun>)
    ensures runs == History(sequences)
    ensures Canonical(runs) && Sequences(runs) == sequences
  {
    runs := [];
    var previous: Option<u24> := None;
    for i := 0 to |sequences|
      invariant runs == History(sequences[..i])
      invariant previous == if i == 0 then None else Some(sequences[i - 1])
    {
      HistoryStep(sequences, i);
      runs := Grow(runs, previous, sequences[i]);
      previous := Some(sequences[i]);
    }
    assert sequences[..|sequences|] == sequences;
    HistoryIsLossless(sequences);
  }

  method Grow(runs: seq<SequenceRun>, previous: Option<u24>, sequence: u24) returns (r: seq<SequenceRun>)
    requires Canonical(runs) && previous == if runs == [] then None else Some(Last(runs[|runs| - 1]))
    ensures r == Record(runs, sequence)
  {
    if previous.Some? && Next(previous.value) == sequence && runs[|runs| - 1].length != MODULUS {
      var last := runs[|runs| - 1];
      r := runs[..|runs| - 1] + [SequenceRun(last.first, last.length + 1)];
    } else {
      r := runs + [SequenceRun(sequence, 1)];
    }
  }

  lemma {:induction false} TotalLengthIsMonotone(runs: seq<SequenceRun>, i: nat)
    requires i <= |runs|
    ensures TotalLength(runs[..i]) <= TotalLength(runs)
    decreases |runs| - i
  {
    if i == |runs| {
      assert runs[..i] == runs;
    } else {
      assert runs[..i + 1][..i] == runs[..i];
      TotalLengthIsMonotone(runs, i + 1);
    }
  }

  /** Counts without expanding; `None` exactly when the total does not fit a machine word. */
  method SequenceCount(runs: seq<SequenceRun>) returns (count: Option<usize>)
    ensures count == if |Sequences(runs)| <= USIZE_MAX then Some(|Sequences(runs)|) else None
  {
    CountIsLength(runs);
    var total := 0;
    for i := 0 to |runs|
      invariant total == TotalLength(runs[..i]) <= USIZE_MAX
    {
      assert runs[..i + 1][..i] == runs[..i];
      TotalLengthIsMonotone(runs, i + 1);
      if total + runs[i].length > USIZE_MAX {
        return None;
      }
      total := total + runs[i].length;
    }
    assert runs[..|runs|] == runs;
    count := Some(total);
  }
}
