/** Deleting marked regions from a text: the regions may nest, overlap and touch. */
module Spans {
  import opened Sorting

  /** From the first position up to, not including, the second. */
  type Span = (nat, nat)

  ghost predicate Covered(spans: seq<Span>, i: int) {
    exists k :: 0 <= k < |spans| && spans[k].0 <= i < spans[k].1
  }

  /** The characters from `lo` to `hi` that are in no span, in their order. */
  ghost function Outside(text: string, spans: seq<Span>, lo: nat, hi: nat): string
    requires hi <= |text|
    decreases hi - lo
  {
    if lo >= hi then ""
    else (if Covered(spans, lo) then "" else [text[lo]]) + Outside(text, spans, lo + 1, hi)
  }

  /** What is left of the text when the union of the spans is deleted. */
  ghost function Deleted(text: string, spans: seq<Span>): string { Outside(text, spans, 0, |text|) }

  lemma {:induction false} OutsideSplits(text: string, spans: seq<Span>, lo: nat, mid: nat, hi: nat)
    requires lo <= mid <= hi <= |text|
    ensures Outside(text, spans, lo, hi) == Outside(text, spans, lo, mid) + Outside(text, spans, mid, hi)
    decreases mid - lo
  {
    if lo < mid {
      OutsideSplits(text, spans, lo + 1, mid, hi);
    }
  }

  lemma {:induction false} NoneCovered(text: string, spans: seq<Span>, lo: nat, hi: nat)
    requires lo <= hi <= |text| && forall i :: lo <= i < hi ==> !Covered(spans, i)
    ensures Outside(text, spans, lo, hi) == text[lo..hi]
    decreases hi - lo
  {
    if lo < hi {
      NoneCovered(text, spans, lo + 1, hi);
      assert text[lo..hi] == [text[lo]] + text[lo + 1..hi];
    }
  }

  lemma {:induction false} AllCovered(text: string, spans: seq<Span>, lo: nat, hi: nat)
    requires lo <= hi <= |text| && forall i :: lo <= i < hi ==> Covered(spans, i)
    ensures Outside(text, spans, lo, hi) == ""
    decreases hi - lo
  {
    if lo < hi {
      AllCovered(text, spans, lo + 1, hi);
    }
  }

  /** A gap that is kept and a region that is dropped, after what is done so far. */
  lemma {:induction false} OneCut(text: string, spans: seq<Span>, prev: nat, a: nat, b: nat)
    requires prev <= a <= b <= |text|
    requires forall i :: prev <= i < a ==> !Covered(spans, i)
    requires forall i :: a <= i < b ==> Covered(spans, i)
    ensures Outside(text, spans, 0, b) == Outside(text, spans, 0, prev) + text[prev..a]
  {
    OutsideSplits(text, spans, 0, prev, b);
    OutsideSplits(text, spans, prev, a, b);
    NoneCovered(text, spans, prev, a);
    AllCovered(text, spans, a, b);
  }

  lemma {:induction false} SameCover(text: string, a: seq<Span>, b: seq<Span>, lo: nat, hi: nat)
    requires lo <= hi <= |text| && forall i :: Covered(a, i) <==> Covered(b, i)
    ensures Outside(text, a, lo, hi) == Outside(text, b, lo, hi)
    decreases hi - lo
  {
    hide Covered;
    if lo < hi {
      SameCover(text, a, b, lo + 1, hi);
    }
  }

  // ---------------------------------------------------------------- merging

  predicate SpanLe(a: Span, b: Span) { a.0 < b.0 || (a.0 == b.0 && a.1 <= b.1) }

  ghost predicate InText(spans: seq<Span>, n: nat) {
    forall k :: 0 <= k < |spans| ==> spans[k].0 <= spans[k].1 <= n
  }

  /** In order, and neither overlapping nor touching. */
  ghost predicate Separated(spans: seq<Span>) {
    forall j, k :: 0 <= j < k < |spans| ==> spans[j].1 < spans[k].0
  }

  lemma {:induction false} SpanOrder()
    ensures Preorder(SpanLe)
  {
  }

  lemma {:induction false} SameSpansCover(a: seq<Span>, b: seq<Span>, i: int)
    requires multiset(a) == multiset(b) && Covered(a, i)
    ensures Covered(b, i)
  {
    var k :| 0 <= k < |a| && a[k].0 <= i < a[k].1;
    assert a[k] in multiset(b);
    var j :| 0 <= j < |b| && b[j] == a[k];
  }

  lemma {:induction false} CoveredSnoc(spans: seq<Span>, s: Span, i: int)
    ensures Covered(spans + [s], i) <==> Covered(spans, i) || s.0 <= i < s.1
  {
    var all := spans + [s];
    assert all[|spans|] == s;
    assert forall k :: 0 <= k < |spans| ==> all[k] == spans[k];
  }

  /** The state of the merging loop. */
  ghost predicate Merged(merged: seq<Span>, taken: seq<Span>, n: nat) {
    Separated(merged) && InText(merged, n) && forall i :: Covered(merged, i) <==> Covered(taken, i)
  }

  lemma {:induction false} MergeApart(merged: seq<Span>, taken: seq<Span>, s: Span, n: nat)
    requires Merged(merged, taken, n) && s.0 <= s.1 <= n
    requires merged != [] ==> merged[|merged| - 1].1 < s.0
    ensures Merged(merged + [s], taken + [s], n)
  {
    forall i ensures Covered(merged + [s], i) <==> Covered(taken + [s], i) {
      CoveredSnoc(merged, s, i);
      CoveredSnoc(taken, s, i);
    }
    assert forall k :: 0 <= k < |merged| - 1 ==> merged[k].1 < merged[|merged| - 1].0;
  }

  lemma {:induction false} MergeInto(merged: seq<Span>, taken: seq<Span>, s: Span, n: nat, last: Span)
    requires Merged(merged + [last], taken, n) && s.0 <= s.1 <= n && last.0 <= s.0 <= last.1
    ensures Merged(merged + [(last.0, if last.1 >= s.1 then last.1 else s.1)], taken + [s], n)
  {
    var wide: Span := (last.0, if last.1 >= s.1 then last.1 else s.1);
    var before := merged + [last];
    forall i ensures Covered(merged + [wide], i) <==> Covered(taken + [s], i) {
      CoveredSnoc(merged, wide, i);
      CoveredSnoc(merged, last, i);
      CoveredSnoc(taken, s, i);
    }
    assert forall k :: 0 <= k < |merged| ==> before[k] == merged[k];
    assert before[|merged|] == last;
  }

  ghost predicate StartsUpTo(merged: seq<Span>, s: nat) { merged != [] ==> merged[|merged| - 1].0 <= s }

  /** The merging loop over the sorted spans: an overlapping or touching span extends the last
      one in place. */
  method MergeSorted(spans: seq<Span>, ghost n: nat) returns (merged: seq<Span>)
    requires InText(spans, n) && SortedBy(spans, SpanLe)
    ensures Separated(merged) && InText(merged, n)
    ensures forall i :: Covered(merged, i) <==> Covered(spans, i)
  {
    merged := [];
    for k := 0 to |spans|
      invariant Merged(merged, spans[..k], n)
      invariant k < |spans| ==> StartsUpTo(merged, spans[k].0)
    {
      var s := spans[k];
      assert spans[..k + 1] == spans[..k] + [s];
      if merged != [] && s.0 <= merged[|merged| - 1].1 {
        var last := merged[|merged| - 1];
        assert merged == merged[..|merged| - 1] + [last];
        MergeInto(merged[..|merged| - 1], spans[..k], s, n, last);
        var wide := (last.0, if last.1 >= s.1 then last.1 else s.1);
        assert merged[|merged| - 1 := wide] == merged[..|merged| - 1] + [wide];
        merged := merged[|merged| - 1 := wide];
      } else {
        MergeApart(merged, spans[..k], s, n);
        merged := merged + [s];
      }
      assert k + 1 < |spans| ==> SpanLe(s, spans[k + 1]);
    }
    assert spans[..|spans|] == spans;
  }

  /** The cutting loop over the merged spans. */
  method Cut(text: string, merged: seq<Span>) returns (out: string)
    requires Separated(merged) && InText(merged, |text|)
    ensures out == Deleted(text, merged)
  {
    out := "";
    var prev: nat := 0;
    for k := 0 to |merged|
      invariant prev <= |text| && out == Outside(text, merged, 0, prev)
      invariant prev == if k == 0 then 0 else merged[k - 1].1
    {
      SpanAhead(text, merged, k, prev);
      OneCut(text, merged, prev, merged[k].0, merged[k].1);
      out := out + text[prev..merged[k].0];
      prev := merged[k].1;
    }
    NothingAhead(merged, prev, |text|);
    OutsideSplits(text, merged, 0, prev, |text|);
    NoneCovered(text, merged, prev, |text|);
    out := out + text[prev..];
  }

  lemma {:induction false} SpanAhead(text: string, merged: seq<Span>, k: nat, prev: nat)
    requires Separated(merged) && InText(merged, |text|) && k < |merged|
    requires prev == if k == 0 then 0 else merged[k - 1].1
    ensures prev <= merged[k].0
    ensures forall i :: prev <= i < merged[k].0 ==> !Covered(merged, i)
    ensures forall i :: merged[k].0 <= i < merged[k].1 ==> Covered(merged, i)
  {
    forall i | prev <= i < merged[k].0 ensures !Covered(merged, i) {
      forall j | 0 <= j < |merged| ensures !(merged[j].0 <= i < merged[j].1) {
        if j < k - 1 {
          assert merged[j].1 < merged[k - 1].0;
        }
        if j > k {
          assert merged[k].1 < merged[j].0;
        }
      }
    }
  }

  lemma {:induction false} NothingAhead(merged: seq<Span>, prev: nat, n: nat)
    requires Separated(merged) && InText(merged, n)
    requires prev == if merged == [] then 0 else merged[|merged| - 1].1
    ensures forall i :: prev <= i ==> !Covered(merged, i)
  {
    forall i | prev <= i ensures !Covered(merged, i) {
      forall j | 0 <= j < |merged| ensures !(merged[j].0 <= i < merged[j].1) {
        if j < |merged| - 1 {
          assert merged[j].1 < merged[|merged| - 1].0;
        }
      }
    }
  }

  /** Sorting, merging and cutting delete exactly the union of the spans. */
  method DeleteSpans(text: string, spans: seq<Span>) returns (out: string)
    requires InText(spans, |text|)
    ensures out == Deleted(text, spans)
  {
    if spans == [] {
      NoneCovered(text, spans, 0, |text|);
      assert text[0..|text|] == text;
      return text;
    }
    SpanOrder();
    SortSorts(spans, SpanLe);
    var sorted := Sort(spans, SpanLe);
    forall k | 0 <= k < |sorted| ensures sorted[k].0 <= sorted[k].1 <= |text| {
      assert sorted[k] in multiset(spans);
    }
    var merged := MergeSorted(sorted, |text|);
    forall i ensures Covered(merged, i) <==> Covered(spans, i) {
      if Covered(spans, i) {
        SameSpansCover(spans, sorted, i);
      }
      if Covered(sorted, i) {
        SameSpansCover(sorted, spans, i);
      }
    }
    out := Cut(text, merged);
    SameCover(text, merged, spans, 0, |text|);
  }
}
