/** Dialog logic the three export dialogs share: the checkbox toggle of a
    selection list and the optional date range built from two date inputs. */
module Controls {
  import opened Wrappers
  import opened Seqs
  import opened Records

  /** `prev.includes(x) ? prev.filter(y => y !== x) : [...prev, x]`. */
  function Toggle(sel: seq<string>, x: string): (r: seq<string>)
    ensures x in r <==> x !in sel
    ensures forall y :: y != x ==> (y in r <==> y in sel)
    ensures x !in sel ==> r == sel + [x]
    ensures x in sel ==> multiset(r) == multiset(sel)[x := 0] && IsSubsequence(r, sel)
  {
    if x in sel then
      WithoutFacts(sel, x);
      var r := Without(sel, x);
      assert forall y :: y != x ==> (y in r <==> y in sel) by {
        forall y | y != x
          ensures y in r <==> y in sel
        {
          assert y in r <==> y in multiset(r);
          assert y in sel <==> y in multiset(sel);
        }
      }
      r
    else sel + [x]
  }

  /** Toggling an unchecked box twice leaves the selection as it was. */
  lemma ToggleTwice(sel: seq<string>, x: string)
    requires x !in sel
    ensures Toggle(Toggle(sel, x), x) == sel
  {
    WithoutAppend(sel, x);
    WithoutAbsent(sel, x);
  }

  lemma {:induction false} WithoutAppend(sel: seq<string>, x: string)
    ensures Without(sel + [x], x) == Without(sel, x)
    decreases |sel|
  {
    if |sel| > 0 {
      assert (sel + [x])[1..] == sel[1..] + [x];
      WithoutAppend(sel[1..], x);
    }
  }

  /** Toggling a checked box twice moves it to the end and keeps the same set. */
  lemma ToggleTwicePresent(sel: seq<string>, x: string)
    requires x in sel && Distinct(sel)
    ensures multiset(Toggle(Toggle(sel, x), x)) == multiset(sel)
    ensures Toggle(Toggle(sel, x), x)[|Toggle(Toggle(sel, x), x)| - 1] == x
  {
    var once := Toggle(sel, x);
    DistinctCount(sel, x);
    assert multiset(sel)[x] == 1;
    assert multiset(once + [x]) == multiset(once) + multiset{x};
  }

  /** The toggle never introduces a duplicate. */
  lemma ToggleDistinct(sel: seq<string>, x: string)
    requires Distinct(sel)
    ensures Distinct(Toggle(sel, x))
  {
    if x in sel {
      DistinctWithout(sel, x);
    }
  }

  /** `...(start && end && { dateRange: { start: new Date(start), end: new Date(end) } })`:
      the range is sent only when both inputs are non-empty; `parseDay` is
      `new Date(...)` on the input text (`None` for an invalid date). */
  function DateRangeOf(start: string, end: string, parseDay: string -> Option<int>): (r: Option<DateRange>)
    ensures r.Some? <==> start != "" && end != ""
    ensures r.Some? ==> r.value.start == parseDay(start) && r.value.end == parseDay(end)
  {
    if start != "" && end != "" then Some(DateRange(parseDay(start), parseDay(end))) else None
  }
}
