/** Spans of days. */
module Spans {

  /** From a day to a day, both included. */
  datatype Span = Span(from: int, to: int)

  ghost predicate Covers(spans: seq<Span>, d: int) {
    exists i :: 0 <= i < |spans| && spans[i].from <= d <= spans[i].to
  }

  ghost predicate AreSpans(spans: seq<Span>) {
    forall i :: 0 <= i < |spans| ==> spans[i].from <= spans[i].to
  }

  /** One after another, with a day between any two. */
  ghost predicate Apart(spans: seq<Span>) {
    forall i, j :: 0 <= i < j < |spans| ==> spans[i].to + 1 < spans[j].from
  }

  ghost predicate ByFrom(spans: seq<Span>) {
    forall i, j :: 0 <= i < j < |spans| ==> spans[i].from <= spans[j].from
  }

  function InsertSpan(s: Span, spans: seq<Span>): seq<Span> {
    if spans == [] || s.from <= spans[0].from then [s] + spans else [spans[0]] + InsertSpan(s, spans[1..])
  }

  function SortSpans(spans: seq<Span>): seq<Span> {
    if spans == [] then [] else InsertSpan(spans[0], SortSpans(spans[1..]))
  }

  lemma {:induction false} InsertSpanSorts(s: Span, spans: seq<Span>)
    requires ByFrom(spans)
    ensures ByFrom(InsertSpan(s, spans))
    ensures forall x :: x in InsertSpan(s, spans) <==> x == s || x in spans
  {
    if spans != [] && !(s.from <= spans[0].from) {
      InsertSpanSorts(s, spans[1..]);
      assert spans == [spans[0]] + spans[1..];
      var rest := InsertSpan(s, spans[1..]);
      forall k | 0 <= k < |rest|
        ensures spans[0].from <= rest[k].from
      {
        assert rest[k] in rest;
      }
    }
  }

  lemma {:induction false} SortSpansSorts(spans: seq<Span>)
    ensures ByFrom(SortSpans(spans))
    ensures forall x :: x in SortSpans(spans) <==> x in spans
  {
    if spans != [] {
      assert spans == [spans[0]] + spans[1..];
      SortSpansSorts(spans[1..]);
      InsertSpanSorts(spans[0], SortSpans(spans[1..]));
    }
  }

  lemma {:induction false} CoversBySet(a: seq<Span>, b: seq<Span>, d: int)
    requires forall x :: x in a <==> x in b
    ensures Covers(a, d) <==> Covers(b, d)
  {
    forall i | 0 <= i < |a|
      ensures a[i] in b
    {
      assert a[i] in a;
    }
    forall i | 0 <= i < |b|
      ensures b[i] in a
    {
      assert b[i] in b;
    }
  }

  function MaxDay(a: int, b: int): int {
    if a > b then a else b
  }

  /** joinSpans: the spans sorted, those that overlap or touch joined. The days
      are the same, and each is in one span. */
  method JoinSpans(spans: seq<Span>) returns (out: seq<Span>)
    requires AreSpans(spans)
    ensures AreSpans(out) && Apart(out)
    ensures forall d :: Covers(out, d) <==> Covers(spans, d)
  {
    var sorted := SortSpans(spans);
    SortSpansSorts(spans);
    forall i | 0 <= i < |sorted|
      ensures sorted[i].from <= sorted[i].to
    {
      assert sorted[i] in sorted;
    }
    out := [];
    for k := 0 to |sorted|
      invariant AreSpans(out) && Apart(out)
      invariant forall i :: 0 <= i < |out| && k < |sorted| ==> out[i].from <= sorted[k].from
      invariant forall d :: Covers(out, d) <==> Covers(sorted[..k], d)
    {
      var s := sorted[k];
      var n := |out|;
      ghost var was := out;
      if n > 0 && s.from <= out[n - 1].to + 1 {
        out := out[n - 1 := Span(out[n - 1].from, MaxDay(out[n - 1].to, s.to))];
      } else {
        out := out + [s];
      }
      forall d
        ensures Covers(out, d) <==> Covers(sorted[..k + 1], d)
      {
        JoinStep(was, s, out, d);
        CoversMore(sorted, k, d);
      }
    }
    forall d
      ensures Covers(out, d) <==> Covers(spans, d)
    {
      assert sorted[..|sorted|] == sorted;
      CoversBySet(sorted, spans, d);
    }
  }

  lemma {:induction false} CoversMore(spans: seq<Span>, k: nat, d: int)
    requires k < |spans|
    ensures Covers(spans[..k + 1], d) <==> Covers(spans[..k], d) || spans[k].from <= d <= spans[k].to
  {
    assert forall i :: 0 <= i < k ==> spans[..k + 1][i] == spans[..k][i];
    assert spans[..k + 1][k] == spans[k];
  }

  lemma {:induction false} JoinStep(out: seq<Span>, s: Span, joined: seq<Span>, d: int)
    requires AreSpans(out) && s.from <= s.to && forall i :: 0 <= i < |out| ==> out[i].from <= s.from
    requires joined == if out != [] && s.from <= out[|out| - 1].to + 1
                       then out[|out| - 1 := Span(out[|out| - 1].from, MaxDay(out[|out| - 1].to, s.to))] else out + [s]
    ensures Covers(joined, d) <==> Covers(out, d) || s.from <= d <= s.to
  {
    var n := |out|;
    assert forall i :: 0 <= i < n - 1 ==> joined[i] == out[i];
    if |joined| == n + 1 {
      assert joined[n] == s && forall i :: 0 <= i < n ==> joined[i] == out[i];
    } else {
      assert joined[n - 1].from == out[n - 1].from;
    }
  }

  lemma {:induction false} CoversTail(spans: seq<Span>, d: int)
    requires spans != [] && AreSpans(spans) && Apart(spans)
    ensures Covers(spans[1..], d) <==> Covers(spans, d) && d > spans[0].to
  {
    assert forall i :: 0 <= i < |spans| - 1 ==> spans[1..][i] == spans[i + 1];
  }

  lemma {:induction false} FirstSpan(a: seq<Span>, b: seq<Span>)
    requires AreSpans(a) && Apart(a) && AreSpans(b) && Apart(b) && a != []
    requires forall d :: Covers(a, d) ==> Covers(b, d)
    ensures b != [] && b[0].from <= a[0].from
  {
    assert Covers(a, a[0].from);
    assert Covers(b, a[0].from);
    var i :| 0 <= i < |b| && b[i].from <= a[0].from <= b[i].to;
  }

  lemma {:induction false} AfterFirst(a: seq<Span>)
    requires AreSpans(a) && Apart(a) && a != []
    ensures !Covers(a, a[0].to + 1)
  {
  }

  lemma {:induction false} FirstSpanEnd(a: seq<Span>, b: seq<Span>)
    requires AreSpans(a) && Apart(a) && AreSpans(b) && Apart(b) && a != [] && b != [] && a[0].from == b[0].from
    requires forall d :: Covers(b, d) ==> Covers(a, d)
    ensures b[0].to <= a[0].to
  {
    AfterFirst(a);
    assert !Covers(b, a[0].to + 1);
    assert !(b[0].from <= a[0].to + 1 <= b[0].to);
  }

  /** Days have one list of spans that do not touch. */
  lemma {:induction false} ApartUnique(a: seq<Span>, b: seq<Span>)
    requires AreSpans(a) && Apart(a) && AreSpans(b) && Apart(b)
    requires forall d :: Covers(a, d) <==> Covers(b, d)
    ensures a == b
  {
    if a != [] { FirstSpan(a, b); }
    if b != [] { FirstSpan(b, a); }
    if a != [] {
      FirstSpanEnd(a, b);
      FirstSpanEnd(b, a);
      forall d
        ensures Covers(a[1..], d) <==> Covers(b[1..], d)
      {
        CoversTail(a, d);
        CoversTail(b, d);
      }
      ApartUnique(a[1..], b[1..]);
      assert a == [a[0]] + a[1..] && b == [b[0]] + b[1..];
    }
  }
}
