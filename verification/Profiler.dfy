/** The samples a profile entry keeps. */
module Profiler {

  datatype Sample = Sample(taken: string, elapsed: real)

  // ---------------------------------------------------------------- extremes

  /** The index of the first of the fastest samples, as `min` finds it. */
  function FirstFastest(s: seq<Sample>): (i: nat)
    requires s != []
    ensures i < |s|
  {
    var n := |s| - 1;
    if n == 0 then 0
    else
      var i := FirstFastest(s[..n]);
      if s[n].elapsed < s[i].elapsed then n else i
  }

  function FirstSlowest(s: seq<Sample>): (i: nat)
    requires s != []
    ensures i < |s|
  {
    var n := |s| - 1;
    if n == 0 then 0
    else
      var i := FirstSlowest(s[..n]);
      if s[n].elapsed > s[i].elapsed then n else i
  }

  predicate Has(s: seq<Sample>, elapsed: real) {
    exists i :: 0 <= i < |s| && s[i].elapsed == elapsed
  }

  predicate Within(s: seq<Sample>, low: real, high: real) {
    forall i :: 0 <= i < |s| ==> low <= s[i].elapsed <= high
  }

  /** `low` and `high` are the least and the greatest time in `s`. */
  predicate Extremes(s: seq<Sample>, low: real, high: real) {
    Within(s, low, high) && Has(s, low) && Has(s, high)
  }

  lemma {:induction false} FirstFastestIsLeast(s: seq<Sample>)
    requires s != []
    ensures forall j :: 0 <= j < |s| ==> s[FirstFastest(s)].elapsed <= s[j].elapsed
  {
    var n := |s| - 1;
    if n > 0 {
      FirstFastestIsLeast(s[..n]);
      assert forall j :: 0 <= j < n ==> s[..n][j] == s[j];
    }
  }

  lemma {:induction false} FirstSlowestIsGreatest(s: seq<Sample>)
    requires s != []
    ensures forall j :: 0 <= j < |s| ==> s[j].elapsed <= s[FirstSlowest(s)].elapsed
  {
    var n := |s| - 1;
    if n > 0 {
      FirstSlowestIsGreatest(s[..n]);
      assert forall j :: 0 <= j < n ==> s[..n][j] == s[j];
    }
  }

  // ---------------------------------------------------------------- trimming

  /** The first index that is not protected, or 0 if there is none. */
  function Victim(s: seq<Sample>): (v: nat)
    requires s != []
    ensures v < |s|
    ensures |s| >= 3 ==> v <= 2 && v != FirstFastest(s) && v != FirstSlowest(s)
  {
    var low, high := FirstFastest(s), FirstSlowest(s);
    if 0 != low && 0 != high then 0
    else if |s| > 1 && 1 != low && 1 != high then 1
    else if |s| > 2 then 2
    else 0
  }

  function Remove(s: seq<Sample>, i: nat): seq<Sample>
    requires i < |s|
  {
    s[..i] + s[i + 1..]
  }

  /** `_trim_samples_keep_extremes` */
  function Trimmed(s: seq<Sample>, cap: nat): (r: seq<Sample>)
    requires cap >= 2
    ensures |r| == if |s| <= cap then |s| else cap
  {
    if |s| <= cap then s else Trimmed(Remove(s, Victim(s)), cap)
  }

  lemma TrimStep(s: seq<Sample>, cap: nat, i: nat)
    requires |s| > cap >= 2
    requires i <= 2 && i != FirstFastest(s) && i != FirstSlowest(s)
    requires i >= 1 ==> FirstFastest(s) == 0 || FirstSlowest(s) == 0
    requires i >= 2 ==> FirstFastest(s) == 1 || FirstSlowest(s) == 1
    ensures Trimmed(s, cap) == Trimmed(s[..i] + s[i + 1..], cap)
  {
    hide FirstFastest, FirstSlowest;
    assert i == Victim(s);
  }

  lemma TrimDone(s: seq<Sample>, cap: nat)
    requires cap >= 2 && |s| <= cap
    ensures Trimmed(s, cap) == s
  {
  }

  /** What an entry holds after samples were appended one by one. */
  function Retained(history: seq<Sample>, cap: nat): (r: seq<Sample>)
    requires cap >= 2
    ensures |r| <= cap
  {
    if history == [] then []
    else Trimmed(Retained(history[..|history| - 1], cap) + [history[|history| - 1]], cap)
  }

  lemma RemoveKeeps(s: seq<Sample>, v: nat, i: nat)
    requires v < |s| && i < |s| && i != v
    ensures Has(Remove(s, v), s[i].elapsed)
  {
    var r := Remove(s, v);
    if i < v { assert r[i] == s[i]; } else { assert r[i - 1] == s[i]; }
  }

  lemma RemoveVictim(s: seq<Sample>, low: real, high: real)
    requires |s| >= 3 && Extremes(s, low, high)
    ensures Extremes(Remove(s, Victim(s)), low, high)
  {
    FirstFastestIsLeast(s);
    FirstSlowestIsGreatest(s);
    RemoveKeeps(s, Victim(s), FirstFastest(s));
    RemoveKeeps(s, Victim(s), FirstSlowest(s));
  }

  lemma {:induction false} TrimKeepsExtremes(s: seq<Sample>, cap: nat, low: real, high: real)
    requires cap >= 2 && Extremes(s, low, high)
    ensures Extremes(Trimmed(s, cap), low, high)
    decreases |s|
  {
    if |s| > cap {
      RemoveVictim(s, low, high);
      TrimKeepsExtremes(Remove(s, Victim(s)), cap, low, high);
    }
  }

  /** The newest samples are never touched: a victim is among the first three. */
  lemma {:induction false} TrimKeepsNewest(s: seq<Sample>, cap: nat)
    requires cap >= 2 && |s| > cap
    ensures Trimmed(s, cap)[2..] == s[|s| - (cap - 2)..]
    decreases |s|
  {
    hide FirstFastest, FirstSlowest, Victim;
    var t := Remove(s, Victim(s));
    RemoveKeepsTail(s, Victim(s), |s| - (cap - 2));
    if |t| > cap { TrimKeepsNewest(t, cap); }
  }

  lemma RemoveKeepsTail(s: seq<Sample>, v: nat, from: nat)
    requires v < from <= |s|
    ensures Remove(s, v)[from - 1..] == s[from..]
  {
  }

  /** Trimming a list of any length ends at the cap, keeps the times of a fastest and a slowest
      sample, and leaves the newest samples as they were. */
  lemma TrimGuarantees(s: seq<Sample>, cap: nat, low: real, high: real)
    requires cap >= 2 && Extremes(s, low, high)
    ensures var r := Trimmed(s, cap);
            && |r| == (if |s| <= cap then |s| else cap)
            && Extremes(r, low, high)
            && (|s| > cap ==> r[2..] == s[|s| - (cap - 2)..])
  {
    TrimKeepsExtremes(s, cap, low, high);
    if |s| > cap { TrimKeepsNewest(s, cap); }
  }

  // ---------------------------------------------------------------- every history

  /** `a` is `b` at the indices `picks`, in order. */
  ghost predicate PickedBy(a: seq<Sample>, b: seq<Sample>, picks: seq<nat>) {
    && |picks| == |a|
    && (forall i :: 0 <= i < |a| ==> picks[i] < |b| && a[i] == b[picks[i]])
    && (forall i, j :: 0 <= i < j < |a| ==> picks[i] < picks[j])
  }

  ghost predicate Subsequence(a: seq<Sample>, b: seq<Sample>) {
    exists picks :: PickedBy(a, b, picks)
  }

  lemma RemovePicks(s: seq<Sample>, v: nat, b: seq<Sample>, picks: seq<nat>)
    requires v < |s| && PickedBy(s, b, picks)
    ensures PickedBy(Remove(s, v), b, picks[..v] + picks[v + 1..])
  {
  }

  lemma {:induction false} TrimPicks(s: seq<Sample>, cap: nat, b: seq<Sample>, picks: seq<nat>) returns (kept: seq<nat>)
    requires cap >= 2 && PickedBy(s, b, picks)
    ensures PickedBy(Trimmed(s, cap), b, kept)
    decreases |s|
  {
    if |s| <= cap { return picks; }
    hide FirstFastest, FirstSlowest, Victim;
    var v := Victim(s);
    RemovePicks(s, v, b, picks);
    kept := TrimPicks(Remove(s, v), cap, b, picks[..v] + picks[v + 1..]);
  }

  lemma {:induction false} RetainedPicks(history: seq<Sample>, cap: nat) returns (picks: seq<nat>)
    requires cap >= 2
    ensures PickedBy(Retained(history, cap), history, picks)
  {
    if history == [] { return []; }
    var n := |history| - 1;
    var before := RetainedPicks(history[..n], cap);
    var kept := Retained(history[..n], cap);
    picks := TrimPicks(kept + [history[n]], cap, history, before + [n]);
  }

  lemma {:induction false} RetainedAll(history: seq<Sample>, cap: nat)
    requires cap >= 2 && |history| <= cap
    ensures Retained(history, cap) == history
  {
    if history != [] {
      RetainedAll(history[..|history| - 1], cap);
      assert history == history[..|history| - 1] + [history[|history| - 1]];
    }
  }

  lemma {:induction false} RetainedNewest(history: seq<Sample>, cap: nat)
    requires cap >= 2 && |history| >= cap
    ensures |Retained(history, cap)| == cap && Retained(history, cap)[2..] == history[|history| - (cap - 2)..]
  {
    if |history| == cap {
      RetainedAll(history, cap);
    } else {
      hide Trimmed;
      var n := |history| - 1;
      var before, last := history[..n], history[n];
      var kept := Retained(before, cap);
      RetainedNewest(before, cap);
      TrimKeepsNewest(kept + [last], cap);
      TailSnoc(kept, before, last, cap);
      assert history == before + [last];
    }
  }

  lemma TailSnoc(a: seq<Sample>, b: seq<Sample>, last: Sample, cap: nat)
    requires |a| == cap >= 2 && |b| >= cap && a[2..] == b[|b| - (cap - 2)..]
    ensures (a + [last])[3..] == (b + [last])[|b| + 1 - (cap - 2)..]
  {
  }

  lemma {:induction false} RetainedExtremes(history: seq<Sample>, cap: nat, low: real, high: real)
    requires cap >= 2 && Extremes(history, low, high)
    ensures Extremes(Retained(history, cap), low, high)
  {
    var n := |history| - 1;
    var before := history[..n];
    var kept := Retained(before, cap);
    assert history == before + [history[n]];
    if before != [] {
      FirstFastestIsLeast(before);
      FirstSlowestIsGreatest(before);
      RetainedExtremes(before, cap, before[FirstFastest(before)].elapsed, before[FirstSlowest(before)].elapsed);
      ExtremesSnoc(kept, before, history[n], low, high);
    }
    TrimKeepsExtremes(kept + [history[n]], cap, low, high);
  }

  /** Lists with the same extremes have the same extremes after one more sample. */
  lemma ExtremesSnoc(a: seq<Sample>, b: seq<Sample>, last: Sample, low: real, high: real)
    requires exists l, h :: Extremes(a, l, h) && Extremes(b, l, h)
    requires Extremes(b + [last], low, high)
    ensures Extremes(a + [last], low, high)
  {
    var l, h :| Extremes(a, l, h) && Extremes(b, l, h);
    WithinSnoc(b, last, low, high);
    assert low <= l && h <= high;
    WithinSnoc(a, last, low, high);
    HasSnoc(b, last, low);
    HasSnoc(b, last, high);
    HasSnoc(a, last, low);
    HasSnoc(a, last, high);
  }

  lemma WithinSnoc(s: seq<Sample>, last: Sample, low: real, high: real)
    ensures Within(s + [last], low, high) <==> Within(s, low, high) && low <= last.elapsed <= high
  {
    var all := s + [last];
    assert all[|s|] == last;
    assert forall i :: 0 <= i < |s| ==> all[i] == s[i];
  }

  lemma HasSnoc(s: seq<Sample>, last: Sample, elapsed: real)
    ensures Has(s + [last], elapsed) <==> Has(s, elapsed) || last.elapsed == elapsed
  {
    var all := s + [last];
    assert all[|s|] == last;
    assert forall i :: 0 <= i < |s| ==> all[i] == s[i];
  }

  /** After any samples, the retained list is a subsequence of the history, is all of it up to
      the cap and has exactly the cap beyond, ends with the latest `cap - 2` samples, and still
      holds a fastest and a slowest sample of the whole history. */
  lemma RetentionGuarantees(history: seq<Sample>, cap: nat, low: real, high: real)
    requires cap >= 2 && Extremes(history, low, high)
    ensures var r := Retained(history, cap);
            && Subsequence(r, history)
            && (|history| <= cap ==> r == history)
            && (|history| >= cap ==> |r| == cap && r[2..] == history[|history| - (cap - 2)..])
            && Extremes(r, low, high)
  {
    var picks := RetainedPicks(history, cap);
    if |history| <= cap { RetainedAll(history, cap); }
    if |history| >= cap { RetainedNewest(history, cap); }
    RetainedExtremes(history, cap, low, high);
  }

  // ---------------------------------------------------------------- the entry

  class Entry {
    const cap: nat
    var count: nat
    var fastest: real
    var slowest: real
    var samples: seq<Sample>
    ghost var history: seq<Sample>

    ghost predicate Valid()
      reads this
    {
      && cap >= 2
      && count == |history|
      && samples == Retained(history, cap)
      && (history != [] ==> Extremes(history, fastest, slowest))
    }

    /** The first sample makes the entry, and is then appended to it. */
    constructor (cap: nat, first: Sample)
      requires cap >= 2
      ensures Valid() && history == [] && this.cap == cap && fastest == slowest == first.elapsed
    {
      this.cap := cap;
      count, samples, history := 0, [], [];
      fastest, slowest := first.elapsed, first.elapsed;
    }

    method Extremals() returns (minIdx: nat, maxIdx: nat)
      requires samples != []
      ensures minIdx == FirstFastest(samples) && maxIdx == FirstSlowest(samples)
    {
      minIdx, maxIdx := 0, 0;
      for i := 1 to |samples|
        invariant minIdx == FirstFastest(samples[..i]) && maxIdx == FirstSlowest(samples[..i])
      {
        assert samples[..i + 1][..i] == samples[..i];
        if samples[i].elapsed < samples[minIdx].elapsed { minIdx := i; }
        if samples[i].elapsed > samples[maxIdx].elapsed { maxIdx := i; }
      }
      assert samples[..|samples|] == samples;
    }

    /** `_trim_samples_keep_extremes` on the entry's list */
    method Trim()
      requires cap >= 2
      modifies this`samples
      ensures samples == Trimmed(old(samples), cap)
    {
      hide FirstFastest, FirstSlowest, Trimmed;
      while |samples| > cap
        invariant Trimmed(samples, cap) == Trimmed(old(samples), cap)
        decreases |samples|
      {
        var minIdx, maxIdx := Extremals();
        var removeIdx := 0;
        while removeIdx == minIdx || removeIdx == maxIdx
          invariant removeIdx <= 2
          invariant removeIdx >= 1 ==> minIdx == 0 || maxIdx == 0
          invariant removeIdx >= 2 ==> minIdx == 1 || maxIdx == 1
          decreases 3 - removeIdx
        {
          removeIdx := removeIdx + 1;
        }
        TrimStep(samples, cap, removeIdx);
        samples := samples[..removeIdx] + samples[removeIdx + 1..];
      }
      TrimDone(samples, cap);
    }

    /** `_append_sample` on an existing entry */
    method Append(sample: Sample)
      requires Valid()
      requires history == [] ==> fastest == slowest == sample.elapsed
      modifies this
      ensures Valid() && history == old(history) + [sample]
    {
      hide Trimmed;
      ghost var before := history;
      count := count + 1;
      fastest := if sample.elapsed < fastest then sample.elapsed else fastest;
      slowest := if sample.elapsed > slowest then sample.elapsed else slowest;
      samples := samples + [sample];
      history := history + [sample];
      assert history[..|history| - 1] == before;
      HasSnoc(before, sample, fastest);
      HasSnoc(before, sample, slowest);
      WithinSnoc(before, sample, fastest, slowest);
      Trim();
    }
  }
}
