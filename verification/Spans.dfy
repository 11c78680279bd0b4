/** Sorted logs of times, and how many of their entries fall in a half-open span. */
module Spans {
  import opened Prelude

  predicate Sorted(ts: seq<int>) {
    forall i, j :: 0 <= i < j < |ts| ==> ts[i] <= ts[j]
  }

  function Span(log: seq<int>, from: int, to: int): set<int> {
    set i | 0 <= i < |log| && from <= log[i] < to
  }

  function Indices(from: int, n: nat): (r: set<int>)
    ensures |r| == n && forall i :: i in r <==> from <= i < from + n
  {
    if n == 0 then {} else Indices(from, n - 1) + {from + n - 1}
  }

  lemma {:induction false} First(log: seq<int>, from: int, to: int) returns (lo: int)
    requires Span(log, from, to) != {}
    ensures lo in Span(log, from, to) && forall i :: i in Span(log, from, to) ==> lo <= i
  {
    lo := 0;
    while lo !in Span(log, from, to)
      invariant 0 <= lo < |log| && forall i :: i in Span(log, from, to) ==> lo <= i
      decreases |log| - lo
    {
      var i :| i in Span(log, from, to);
      lo := lo + 1;
    }
  }

  /** When entries `max` apart are a window apart, a half-open span of one window holds at most `max`. */
  lemma {:induction false} SpacedSpan(log: seq<int>, w: int, max: nat, from: int)
    requires Sorted(log) && max >= 1
    requires forall i :: 0 <= i && i + max < |log| ==> log[i + max] >= log[i] + w
    ensures |Span(log, from, from + w)| <= max
  {
    var span := Span(log, from, from + w);
    if span != {} {
      var lo := First(log, from, from + w);
      assert lo + max < |log| ==> log[lo + max] >= log[lo] + w;
      SubsetSize(span, Indices(lo, max));
    }
  }
}
