/** The statistics block of the admin dashboard (`app/admin/page.tsx`):
    totals, distinct cities, ownership counts, the per-city breakdown and the
    five biggest cities. */
module AdminStats {
  import opened Wrappers
  import opened Seqs

  /** A `waitlist` row. */
  datatype Entry = Entry(id: string, name: string, email: string, city: string, bikeOwnership: string, createdAt: string)

  /** `waitlistEntries || []`: a failed query shows an empty dashboard. */
  function Entries(queried: Option<seq<Entry>>): (es: seq<Entry>)
    ensures queried.None? ==> es == []
    ensures queried.Some? ==> es == queried.value
  {
    queried.GetOr([])
  }

  function CitySet(es: seq<Entry>): set<string> {
    set e | e in es :: e.city
  }

  /** `new Set(entries.map(e => e.city)).size`. */
  function CitiesCount(es: seq<Entry>): nat {
    |CitySet(es)|
  }

  function Ownerships(es: seq<Entry>): (r: seq<string>)
    ensures |r| == |es| && forall i :: 0 <= i < |es| ==> r[i] == es[i].bikeOwnership
  {
    seq(|es|, i requires 0 <= i < |es| => es[i].bikeOwnership)
  }

  /** `entries.filter(e => e.bike_ownership === v).length`. */
  function CountOwnership(es: seq<Entry>, v: string): (n: nat)
    ensures n <= |es|
    ensures n == multiset(Ownerships(es))[v]
    decreases |es|
  {
    if |es| == 0 then 0
    else
      var n := CountOwnership(es[1..], v);
      assert Ownerships(es) == [es[0].bikeOwnership] + Ownerships(es[1..]);
      (if es[0].bikeOwnership == v then 1 else 0) + n
  }

  /** With the three values the form allows, owners, non-owners and planners
      add up to all signups. */
  lemma OwnershipPartition(es: seq<Entry>)
    requires forall i :: 0 <= i < |es| ==> es[i].bikeOwnership in {"yes", "no", "planning"}
    ensures CountOwnership(es, "yes") + CountOwnership(es, "no") + CountOwnership(es, "planning") == |es|
  {
    var os := Ownerships(es);
    var m := multiset(os);
    assert forall v :: v in m ==> v == "yes" || v == "no" || v == "planning";
    MultisetOfThree(m);
  }

  lemma MultisetOfThree(m: multiset<string>)
    requires forall v :: v in m ==> v == "yes" || v == "no" || v == "planning"
    ensures m["yes"] + m["no"] + m["planning"] == |m|
  {
    var y := multiset{}["yes" := m["yes"]];
    var n := multiset{}["no" := m["no"]];
    var p := multiset{}["planning" := m["planning"]];
    assert m == y + n + p;
  }

  /** One `(city, count)` pair of the breakdown, in key insertion order. */
  type Tally = seq<(string, nat)>

  function Cities(bd: Tally): (r: seq<string>)
    ensures |r| == |bd| && forall i :: 0 <= i < |bd| ==> r[i] == bd[i].0
  {
    seq(|bd|, i requires 0 <= i < |bd| => bd[i].0)
  }

  /** `acc[city] = (acc[city] || 0) + 1` on an insertion-ordered object. */
  function Bump(acc: Tally, city: string): Tally
    decreases |acc|
  {
    if |acc| == 0 then [(city, 1)]
    else if acc[0].0 == city then [(city, acc[0].1 + 1)] + acc[1..]
    else [acc[0]] + Bump(acc[1..], city)
  }

  /** `cityBreakdown`: the reduce over the entries. */
  function Breakdown(es: seq<Entry>): Tally
    decreases |es|
  {
    if |es| == 0 then [] else Bump(Breakdown(es[..|es| - 1]), es[|es| - 1].city)
  }

  /** The number of entries from `city`: the reference the breakdown is checked against. */
  function CountCity(es: seq<Entry>, city: string): nat
    decreases |es|
  {
    if |es| == 0 then 0 else CountCity(es[..|es| - 1], city) + (if es[|es| - 1].city == city then 1 else 0)
  }

  function Total(bd: Tally): nat
    decreases |bd|
  {
    if |bd| == 0 then 0 else bd[0].1 + Total(bd[1..])
  }

  /** A bump raises the count of an existing city in place, or appends the new
      city with count 1; every other pair is untouched. */
  lemma {:induction false} BumpAt(acc: Tally, city: string)
    requires Distinct(Cities(acc))
    ensures city in Cities(acc) ==> |Bump(acc, city)| == |acc|
    ensures city !in Cities(acc) ==> |Bump(acc, city)| == |acc| + 1 && Bump(acc, city)[|acc|] == (city, 1)
    ensures forall i :: 0 <= i < |acc| ==>
      Bump(acc, city)[i] == if acc[i].0 == city then (city, acc[i].1 + 1) else acc[i]
    decreases |acc|
  {
    if |acc| > 0 {
      assert Cities(acc) == [acc[0].0] + Cities(acc[1..]);
      if acc[0].0 != city {
        BumpAt(acc[1..], city);
        BumpPast(acc, city);
      } else {
        BumpHere(acc, city);
      }
    }
  }

  lemma BumpPast(acc: Tally, city: string)
    requires |acc| > 0 && acc[0].0 != city
    requires city in Cities(acc[1..]) ==> |Bump(acc[1..], city)| == |acc| - 1
    requires city !in Cities(acc[1..]) ==> |Bump(acc[1..], city)| == |acc| && Bump(acc[1..], city)[|acc| - 1] == (city, 1)
    requires forall i :: 0 <= i < |acc| - 1 ==>
      Bump(acc[1..], city)[i] == if acc[1..][i].0 == city then (city, acc[1..][i].1 + 1) else acc[1..][i]
    ensures city in Cities(acc) ==> |Bump(acc, city)| == |acc|
    ensures city !in Cities(acc) ==> |Bump(acc, city)| == |acc| + 1 && Bump(acc, city)[|acc|] == (city, 1)
    ensures forall i :: 0 <= i < |acc| ==>
      Bump(acc, city)[i] == if acc[i].0 == city then (city, acc[i].1 + 1) else acc[i]
  {
    var r := Bump(acc, city);
    assert r == [acc[0]] + Bump(acc[1..], city);
    assert Cities(acc) == [acc[0].0] + Cities(acc[1..]);
    forall i | 0 < i < |acc|
      ensures r[i] == if acc[i].0 == city then (city, acc[i].1 + 1) else acc[i]
    {
      assert r[i] == Bump(acc[1..], city)[i - 1] && acc[i] == acc[1..][i - 1];
    }
  }

  lemma BumpHere(acc: Tally, city: string)
    requires |acc| > 0 && acc[0].0 == city && Distinct(Cities(acc))
    ensures |Bump(acc, city)| == |acc|
    ensures forall i :: 0 <= i < |acc| ==>
      Bump(acc, city)[i] == if acc[i].0 == city then (city, acc[i].1 + 1) else acc[i]
  {
    forall i | 0 < i < |acc|
      ensures acc[i].0 != city
    {
      assert Cities(acc)[i] != Cities(acc)[0];
    }
  }

  lemma {:induction false} BumpTotal(acc: Tally, city: string)
    ensures Total(Bump(acc, city)) == Total(acc) + 1
    decreases |acc|
  {
    if |acc| > 0 && acc[0].0 != city {
      BumpTotal(acc[1..], city);
      assert Bump(acc, city)[1..] == Bump(acc[1..], city);
    } else if |acc| > 0 {
      assert Bump(acc, city)[1..] == acc[1..];
    }
  }

  /** Bumping keeps the city list duplicate-free and adds exactly the bumped city. */
  lemma BumpCities(acc: Tally, city: string)
    requires Distinct(Cities(acc))
    ensures Distinct(Cities(Bump(acc, city)))
    ensures forall c :: c in Cities(Bump(acc, city)) <==> c in Cities(acc) || c == city
  {
    BumpAt(acc, city);
    var r := Bump(acc, city);
    assert forall i :: 0 <= i < |acc| ==> Cities(r)[i] == Cities(acc)[i];
    if city in Cities(acc) {
      assert Cities(r) == Cities(acc);
    } else {
      assert Cities(r) == Cities(acc) + [city];
    }
  }

  /** The breakdown lists every city of the entries exactly once. */
  lemma {:induction false} BreakdownCities(es: seq<Entry>)
    ensures Distinct(Cities(Breakdown(es)))
    ensures forall c :: c in Cities(Breakdown(es)) <==> c in CitySet(es)
    decreases |es|
  {
    if |es| > 0 {
      var pre := es[..|es| - 1];
      var c := es[|es| - 1].city;
      BreakdownCities(pre);
      BumpCities(Breakdown(pre), c);
      assert es == pre + [es[|es| - 1]];
      assert CitySet(es) == CitySet(pre) + {c};
    }
  }

  /** The position of the first entry from `city`, or `|es|` when there is none. */
  function FirstFrom(es: seq<Entry>, city: string): (k: nat)
    ensures k <= |es|
    ensures k < |es| ==> es[k].city == city
    ensures forall j :: 0 <= j < k ==> es[j].city != city
    decreases |es|
  {
    if |es| == 0 then 0
    else if es[0].city == city then 0
    else 1 + FirstFrom(es[1..], city)
  }

  /** The breakdown's key order: cities in the order of their first entry in
      the fetched list (newest first, so by each city's latest signup). */
  lemma {:induction false} BreakdownOrder(es: seq<Entry>)
    ensures forall i :: 0 <= i < |Breakdown(es)| ==> FirstFrom(es, Breakdown(es)[i].0) < |es|
    ensures forall i, j :: 0 <= i < j < |Breakdown(es)| ==>
      FirstFrom(es, Breakdown(es)[i].0) < FirstFrom(es, Breakdown(es)[j].0)
    decreases |es|
  {
    if |es| > 0 {
      var pre := es[..|es| - 1];
      var c := es[|es| - 1].city;
      var acc := Breakdown(pre);
      var bd := Breakdown(es);
      var fa := Firsts(pre, acc);
      var fb := Firsts(es, bd);
      BreakdownSnoc(es);
      BreakdownOrder(pre);
      forall i | 0 <= i < |acc|
        ensures fb[i] == fa[i]
      {
        FirstFromSnoc(es, acc[i].0);
      }
      if |bd| > |acc| {
        NotInCitySet(pre, c);
        FirstFromSnoc(es, c);
      }
      IncreasingStep(fa, fb, |pre|);
    }
  }

  /** The first-entry positions of a breakdown's cities. */
  function Firsts(es: seq<Entry>, bd: Tally): (f: seq<nat>)
    ensures |f| == |bd| && forall i :: 0 <= i < |bd| ==> f[i] == FirstFrom(es, bd[i].0)
  {
    seq(|bd|, i requires 0 <= i < |bd| => FirstFrom(es, bd[i].0))
  }

  /** Appending a position past all earlier ones keeps a list of positions increasing. */
  lemma IncreasingStep(fa: seq<nat>, fb: seq<nat>, n: nat)
    requires |fa| <= |fb| <= |fa| + 1
    requires forall i :: 0 <= i < |fa| ==> fb[i] == fa[i] && fa[i] < n
    requires forall i, j :: 0 <= i < j < |fa| ==> fa[i] < fa[j]
    requires |fb| > |fa| ==> fb[|fa|] == n
    ensures forall i :: 0 <= i < |fb| ==> fb[i] < n + 1
    ensures forall i, j :: 0 <= i < j < |fb| ==> fb[i] < fb[j]
  {
  }

  /** One more entry keeps the breakdown's cities in place and appends its
      city when that city is new. */
  lemma BreakdownSnoc(es: seq<Entry>)
    requires |es| > 0
    ensures var pre := es[..|es| - 1];
      var acc, bd := Breakdown(pre), Breakdown(es);
      && |acc| <= |bd| && (forall i :: 0 <= i < |acc| ==> bd[i].0 == acc[i].0)
      && (|bd| > |acc| ==> (|bd| == |acc| + 1 && bd[|acc|].0 == es[|es| - 1].city
            && es[|es| - 1].city !in CitySet(pre)))
  {
    var pre := es[..|es| - 1];
    var c := es[|es| - 1].city;
    var acc := Breakdown(pre);
    BreakdownCities(pre);
    BumpAt(acc, c);
    assert Breakdown(es) == Bump(acc, c);
    forall i | 0 <= i < |acc|
      ensures Bump(acc, c)[i].0 == acc[i].0
    {
    }
  }

  lemma FirstFromSnoc(es: seq<Entry>, city: string)
    requires |es| > 0
    ensures var pre := es[..|es| - 1];
      && (FirstFrom(pre, city) < |pre| ==> FirstFrom(es, city) == FirstFrom(pre, city))
      && (FirstFrom(pre, city) == |pre| && es[|es| - 1].city == city ==> FirstFrom(es, city) == |pre|)
  {
    var pre := es[..|es| - 1];
    assert forall j :: 0 <= j < |pre| ==> es[j] == pre[j];
  }

  lemma NotInCitySet(es: seq<Entry>, city: string)
    requires city !in CitySet(es)
    ensures FirstFrom(es, city) == |es|
  {
    assert forall j :: 0 <= j < |es| ==> es[j].city in CitySet(es);
  }

  /** Each city's count in the breakdown is its number of entries. */
  lemma {:induction false} BreakdownCounts(es: seq<Entry>)
    ensures forall i :: 0 <= i < |Breakdown(es)| ==> Breakdown(es)[i].1 == CountCity(es, Breakdown(es)[i].0)
    decreases |es|
  {
    if |es| > 0 {
      var pre := es[..|es| - 1];
      var c := es[|es| - 1].city;
      BreakdownCounts(pre);
      BreakdownCities(pre);
      var acc := Breakdown(pre);
      BumpAt(acc, c);
      var bd := Breakdown(es);
      forall i | 0 <= i < |bd|
        ensures bd[i].1 == CountCity(es, bd[i].0)
      {
        if i < |acc| {
          assert bd[i].0 == acc[i].0;
        } else {
          assert c !in Cities(acc);
          assert c !in CitySet(pre);
          NoEntryNoCount(pre, c);
        }
      }
    }
  }

  lemma {:induction false} NoEntryNoCount(es: seq<Entry>, c: string)
    requires c !in CitySet(es)
    ensures CountCity(es, c) == 0
    decreases |es|
  {
    if |es| > 0 {
      var pre := es[..|es| - 1];
      assert es[|es| - 1] in es;
      assert CitySet(pre) <= CitySet(es) by {
        forall e | e in pre ensures e in es { }
      }
      NoEntryNoCount(pre, c);
    }
  }

  /** The counts of the breakdown add up to the number of signups. */
  lemma {:induction false} BreakdownTotal(es: seq<Entry>)
    ensures Total(Breakdown(es)) == |es|
    decreases |es|
  {
    if |es| > 0 {
      BreakdownTotal(es[..|es| - 1]);
      BumpTotal(Breakdown(es[..|es| - 1]), es[|es| - 1].city);
    }
  }

  /** The breakdown has one pair per distinct city. */
  lemma BreakdownSize(es: seq<Entry>)
    ensures |Breakdown(es)| == CitiesCount(es)
  {
    BreakdownCities(es);
    var ks := Cities(Breakdown(es));
    DistinctCard(ks);
    assert (set x | x in ks) == CitySet(es);
  }

  lemma {:induction false} DistinctCard(xs: seq<string>)
    requires Distinct(xs)
    ensures |set x | x in xs| == |xs|
    decreases |xs|
  {
    if |xs| > 0 {
      var t := xs[1..];
      DistinctCard(t);
      assert (set x | x in xs) == (set x | x in t) + {xs[0]};
      assert xs[0] !in t;
    }
  }

  predicate SortedDesc(bd: Tally) {
    forall i, j :: 0 <= i < j < |bd| ==> bd[i].1 >= bd[j].1
  }

  /** The pairs with count `k`, in order. */
  function WithCount(bd: Tally, k: nat): Tally
    decreases |bd|
  {
    if |bd| == 0 then [] else (if bd[0].1 == k then [bd[0]] else []) + WithCount(bd[1..], k)
  }

  /** Insertion after every pair with a count at least as large. */
  function Insert(x: (string, nat), s: Tally): Tally
    decreases |s|
  {
    if |s| == 0 then [x]
    else if s[0].1 >= x.1 then [s[0]] + Insert(x, s[1..])
    else [x] + s
  }

  /** `.sort(([, a], [, b]) => b - a)`: a stable sort by decreasing count. */
  function SortDesc(bd: Tally): Tally
    decreases |bd|
  {
    if |bd| == 0 then [] else Insert(bd[|bd| - 1], SortDesc(bd[..|bd| - 1]))
  }

  predicate AllAtMost(s: Tally, k: nat) {
    forall i :: 0 <= i < |s| ==> s[i].1 <= k
  }

  lemma ConsSorted(h: (string, nat), t: Tally)
    requires SortedDesc(t) && AllAtMost(t, h.1)
    ensures SortedDesc([h] + t)
  {
    var r := [h] + t;
    assert forall i :: 0 < i < |r| ==> r[i] == t[i - 1];
  }

  lemma {:induction false} InsertBound(x: (string, nat), s: Tally, k: nat)
    requires AllAtMost(s, k) && x.1 <= k
    ensures AllAtMost(Insert(x, s), k)
    decreases |s|
  {
    if |s| > 0 && s[0].1 >= x.1 {
      InsertBound(x, s[1..], k);
      assert Insert(x, s)[1..] == Insert(x, s[1..]);
    } else if |s| > 0 {
      assert Insert(x, s)[1..] == s;
    }
  }

  /** Insertion keeps the list sorted. */
  lemma {:induction false} InsertSorted(x: (string, nat), s: Tally)
    requires SortedDesc(s)
    ensures SortedDesc(Insert(x, s))
    decreases |s|
  {
    if |s| > 0 && s[0].1 >= x.1 {
      InsertSorted(x, s[1..]);
      InsertBound(x, s[1..], s[0].1);
      ConsSorted(s[0], Insert(x, s[1..]));
    } else if |s| > 0 {
      ConsSorted(x, s);
    }
  }

  /** Insertion adds exactly the inserted pair. */
  lemma {:induction false} InsertPerm(x: (string, nat), s: Tally)
    ensures multiset(Insert(x, s)) == multiset(s) + multiset{x}
    decreases |s|
  {
    if |s| > 0 && s[0].1 >= x.1 {
      InsertPerm(x, s[1..]);
      assert s == [s[0]] + s[1..];
    }
  }

  lemma {:induction false} InsertStable(x: (string, nat), s: Tally, k: nat)
    requires SortedDesc(s)
    ensures WithCount(Insert(x, s), k) == WithCount(s, k) + (if x.1 == k then [x] else [])
    decreases |s|
  {
    if |s| == 0 {
    } else if s[0].1 >= x.1 {
      InsertStable(x, s[1..], k);
      var r := Insert(x, s);
      assert r[1..] == Insert(x, s[1..]);
    } else {
      var r := Insert(x, s);
      assert r[1..] == s;
      if x.1 == k {
        BelowHasNone(s, k);
      }
    }
  }

  /** A sorted list headed by a count below `k` has no pair of count `k`. */
  lemma {:induction false} BelowHasNone(s: Tally, k: nat)
    requires SortedDesc(s) && |s| > 0 && s[0].1 < k
    ensures WithCount(s, k) == []
    decreases |s|
  {
    if |s| > 1 {
      BelowHasNone(s[1..], k);
    }
  }

  /** The sort orders by decreasing count, permutes the pairs, and keeps the
      original order among pairs of equal count. */
  lemma {:induction false} SortFacts(bd: Tally)
    ensures SortedDesc(SortDesc(bd))
    ensures multiset(SortDesc(bd)) == multiset(bd)
    ensures forall k :: WithCount(SortDesc(bd), k) == WithCount(bd, k)
    decreases |bd|
  {
    if |bd| > 0 {
      var pre := bd[..|bd| - 1];
      var x := bd[|bd| - 1];
      SortFacts(pre);
      InsertSorted(x, SortDesc(pre));
      InsertPerm(x, SortDesc(pre));
      assert bd == pre + [x];
      forall k
        ensures WithCount(SortDesc(bd), k) == WithCount(bd, k)
      {
        InsertStable(x, SortDesc(pre), k);
        WithCountAppend(pre, x, k);
      }
    }
  }

  lemma {:induction false} WithCountAppend(s: Tally, x: (string, nat), k: nat)
    ensures WithCount(s + [x], k) == WithCount(s, k) + (if x.1 == k then [x] else [])
    decreases |s|
  {
    if |s| > 0 {
      assert (s + [x])[1..] == s[1..] + [x];
      WithCountAppend(s[1..], x, k);
    }
  }

  /** `topCities`: the first five pairs of the sorted breakdown. */
  function TopCities(es: seq<Entry>): Tally {
    var sorted := SortDesc(Breakdown(es));
    if |sorted| <= 5 then sorted else sorted[..5]
  }

  /** At most five cities, biggest first, each with its true count, and no city
      left out has more signups than one shown. */
  lemma TopCitiesFacts(es: seq<Entry>)
    ensures |TopCities(es)| == if CitiesCount(es) < 5 then CitiesCount(es) else 5
    ensures SortedDesc(TopCities(es))
    ensures forall p :: p in TopCities(es) ==> p in Breakdown(es) && p.1 == CountCity(es, p.0)
    ensures forall p, q :: p in Breakdown(es) && p !in TopCities(es) && q in TopCities(es) ==> p.1 <= q.1
  {
    var bd := Breakdown(es);
    SortFacts(bd);
    BreakdownSize(es);
    assert |SortDesc(bd)| == |bd| by { assert |multiset(SortDesc(bd))| == |multiset(bd)|; }
    TopMembers(es);
    TopBeatsRest(es);
  }

  lemma TopMembers(es: seq<Entry>)
    ensures forall p :: p in TopCities(es) ==> p in Breakdown(es) && p.1 == CountCity(es, p.0)
  {
    var bd := Breakdown(es);
    var sorted := SortDesc(bd);
    SortFacts(bd);
    BreakdownCounts(es);
    forall p | p in TopCities(es)
      ensures p in bd && p.1 == CountCity(es, p.0)
    {
      assert p in sorted;
      assert p in multiset(bd);
      var j :| 0 <= j < |bd| && bd[j] == p;
    }
  }

  lemma TopBeatsRest(es: seq<Entry>)
    ensures forall p, q :: p in Breakdown(es) && p !in TopCities(es) && q in TopCities(es) ==> p.1 <= q.1
  {
    var bd := Breakdown(es);
    var sorted := SortDesc(bd);
    var top := TopCities(es);
    SortFacts(bd);
    forall p, q | p in bd && p !in top && q in top
      ensures p.1 <= q.1
    {
      assert p in multiset(sorted);
      var i :| 0 <= i < |sorted| && sorted[i] == p;
      var j :| 0 <= j < |top| && top[j] == q;
      assert sorted[j] == q;
      assert i >= 5;
    }
  }
}
