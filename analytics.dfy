/** The statistics panel (src/components/Analytics.tsx): frequency tables of
    skills and cities built by counting loops, their top entries, and the
    experience and score buckets. */
module Analytics {
  import opened Candidates
  import StableSort

  // ---------------------------------------------------------------------------
  // Frequency tables
  // ---------------------------------------------------------------------------

  /** A `Record<string, number>` filled by `t[k] = (t[k] || 0) + 1`: its keys
      in insertion order and the count stored under each. */
  datatype Frequency = Frequency(keys: seq<string>, counts: map<string, nat>)

  ghost predicate Distinct(xs: seq<string>) {
    forall i, j :: 0 <= i < j < |xs| ==> xs[i] != xs[j]
  }

  /** Every key is listed once, and exactly the listed keys have a count. */
  ghost predicate WellFormed(f: Frequency) {
    Distinct(f.keys) && forall k :: k in f.counts <==> k in f.keys
  }

  /** `table[k] || 0`. */
  function CountOf(f: Frequency, k: string): nat {
    if k in f.counts then f.counts[k] else 0
  }

  /** One counting step, `table[k] = (table[k] || 0) + 1`: a new key goes to
      the end of the key order. */
  function Bump(f: Frequency, k: string): Frequency {
    if k in f.counts then Frequency(f.keys, f.counts[k := CountOf(f, k) + 1])
    else Frequency(f.keys + [k], f.counts[k := CountOf(f, k) + 1])
  }

  /** A counting step keeps the keys listed once each, and only they are counted. */
  lemma BumpWellFormed(f: Frequency, k: string)
    requires WellFormed(f)
    ensures WellFormed(Bump(f, k))
  {
    var r := Bump(f, k);
    if k !in f.counts {
      forall i, j | 0 <= i < j < |r.keys| ensures r.keys[i] != r.keys[j] {
        if j == |f.keys| {
          assert f.keys[i] in f.keys;
        }
      }
      forall j ensures j in r.counts <==> j in r.keys {
        assert j in r.keys <==> j in f.keys || j == k;
      }
    }
  }

  /** The table the counting loop leaves after visiting `xs` in order. */
  function Tally(xs: seq<string>): Frequency {
    if xs == [] then Frequency([], map[])
    else Bump(Tally(xs[..|xs| - 1]), xs[|xs| - 1])
  }

  lemma {:induction false} TallyWellFormed(xs: seq<string>)
    ensures WellFormed(Tally(xs))
  {
    if xs != [] {
      TallyWellFormed(xs[..|xs| - 1]);
      BumpWellFormed(Tally(xs[..|xs| - 1]), xs[|xs| - 1]);
    }
  }

  /** The table counts every string exactly as often as it occurs (case
      included), and has no other keys. */
  lemma {:induction false} TallyCounts(xs: seq<string>)
    ensures forall k :: k in Tally(xs).counts <==> k in xs
    ensures forall k :: k in Tally(xs).counts ==> Tally(xs).counts[k] == multiset(xs)[k]
  {
    if xs != [] {
      var p, x := xs[..|xs| - 1], xs[|xs| - 1];
      TallyCounts(p);
      assert xs == p + [x];
      assert multiset(xs) == multiset(p) + multiset{x};
      forall k ensures k in xs <==> k in p || k == x {
        if k in xs {
          var i :| 0 <= i < |xs| && xs[i] == k;
          if i < |p| {
            assert p[i] == k;
          }
        }
      }
    }
  }

  /** The sum of the counts, over the keys in order. */
  function Sum(keys: seq<string>, counts: map<string, nat>): nat {
    if keys == [] then 0
    else (if keys[0] in counts then counts[keys[0]] else 0) + Sum(keys[1..], counts)
  }

  function Total(f: Frequency): nat {
    Sum(f.keys, f.counts)
  }

  lemma {:induction false} SumAppend(keys: seq<string>, k: string, counts: map<string, nat>)
    requires k in counts
    ensures Sum(keys + [k], counts) == Sum(keys, counts) + counts[k]
  {
    if keys != [] {
      assert (keys + [k])[1..] == keys[1..] + [k];
      SumAppend(keys[1..], k, counts);
    }
  }

  lemma {:induction false} SumOutside(keys: seq<string>, k: string, v: nat, counts: map<string, nat>)
    requires k !in keys
    ensures Sum(keys, counts[k := v]) == Sum(keys, counts)
  {
    if keys != [] {
      SumOutside(keys[1..], k, v, counts);
    }
  }

  lemma {:induction false} SumInside(keys: seq<string>, k: string, counts: map<string, nat>)
    requires Distinct(keys) && k in keys && k in counts
    ensures Sum(keys, counts[k := counts[k] + 1]) == Sum(keys, counts) + 1
  {
    if keys[0] == k {
      assert k !in keys[1..];
      SumOutside(keys[1..], k, counts[k] + 1, counts);
    } else {
      SumInside(keys[1..], k, counts);
    }
  }

  /** The counts add up to the number of strings counted. */
  lemma {:induction false} TallyTotal(xs: seq<string>)
    ensures Total(Tally(xs)) == |xs|
  {
    if xs != [] {
      var p, x := xs[..|xs| - 1], xs[|xs| - 1];
      var f := Tally(p);
      TallyTotal(p);
      TallyWellFormed(p);
      if x in f.counts {
        SumInside(f.keys, x, f.counts);
      } else {
        SumOutside(f.keys, x, 1, f.counts);
        SumAppend(f.keys, x, f.counts[x := 1]);
      }
    }
  }

  lemma {:induction false} DistinctCard(xs: seq<string>)
    requires Distinct(xs)
    ensures |set x | x in xs| == |xs|
  {
    if xs != [] {
      var t := xs[1..];
      DistinctCard(t);
      assert (set x | x in xs) == {xs[0]} + (set x | x in t);
      assert xs[0] !in (set x | x in t);
    }
  }

  /** The number of keys is the number of distinct strings counted. */
  lemma TallyKeyCount(xs: seq<string>)
    ensures |Tally(xs).keys| == |set x | x in xs|
  {
    var f := Tally(xs);
    TallyCounts(xs);
    TallyWellFormed(xs);
    DistinctCard(f.keys);
    assert (set x | x in f.keys) == (set x | x in xs);
  }

  /** `Object.entries(table)`. */
  function Entries(f: Frequency): (r: seq<(string, nat)>)
    ensures |r| == |f.keys|
    ensures forall i {:trigger r[i]} :: 0 <= i < |r| ==> r[i].0 == f.keys[i] && r[i].1 == CountOf(f, f.keys[i])
  {
    seq(|f.keys|, i requires 0 <= i < |f.keys| => (f.keys[i], CountOf(f, f.keys[i])))
  }

  // ---------------------------------------------------------------------------
  // The counting loops
  // ---------------------------------------------------------------------------

  /** Every skill entry of every candidate, candidates in order. */
  function AllSkills(cs: seq<Candidate>): seq<string> {
    if cs == [] then [] else AllSkills(cs[..|cs| - 1]) + SkillsOf(cs[|cs| - 1])
  }

  /** The cities of the candidates that have one. */
  function Cities(cs: seq<Candidate>): (r: seq<string>)
    ensures |r| <= |cs| && "" !in r
  {
    if cs == [] then []
    else
      var c := cs[|cs| - 1];
      Cities(cs[..|cs| - 1]) + (if c.city != "" then [c.city] else [])
  }

  lemma TallyStep(xs: seq<string>, x: string)
    ensures Tally(xs + [x]) == Bump(Tally(xs), x)
  {
    assert (xs + [x])[..|xs|] == xs;
  }

  lemma AllSkillsStep(cs: seq<Candidate>, i: nat)
    requires i < |cs|
    ensures AllSkills(cs[..i + 1]) == AllSkills(cs[..i]) + SkillsOf(cs[i])
  {
    assert cs[..i + 1][..i] == cs[..i];
  }

  lemma CitiesStep(cs: seq<Candidate>, i: nat)
    requires i < |cs|
    ensures Cities(cs[..i + 1]) == Cities(cs[..i]) + (if cs[i].city != "" then [cs[i].city] else [])
  {
    assert cs[..i + 1][..i] == cs[..i];
  }

  /** One more candidate bumps its city's count, if it has a city. */
  lemma CityTallyStep(cs: seq<Candidate>, i: nat)
    requires i < |cs|
    ensures Tally(Cities(cs[..i + 1])) ==
            if cs[i].city != "" then Bump(Tally(Cities(cs[..i])), cs[i].city) else Tally(Cities(cs[..i]))
  {
    CitiesStep(cs, i);
    if cs[i].city != "" {
      TallyStep(Cities(cs[..i]), cs[i].city);
    } else {
      assert Cities(cs[..i]) + [] == Cities(cs[..i]);
    }
  }

  /** `table[k] = (table[k] || 0) + 1` on the table held as keys and counts. */
  method Count(keys: seq<string>, counts: map<string, nat>, k: string)
    returns (keys': seq<string>, counts': map<string, nat>)
    ensures Frequency(keys', counts') == Bump(Frequency(keys, counts), k)
  {
    var n := if k in counts then counts[k] else 0;
    keys' := keys;
    if k !in counts {
      keys' := keys + [k];
    }
    counts' := counts[k := n + 1];
  }

  /** `skillFrequency`: one count per skill entry, duplicates within one
      candidate included. */
  method SkillFrequency(cs: seq<Candidate>) returns (f: Frequency)
    ensures f == Tally(AllSkills(cs))
  {
    var keys: seq<string> := [];
    var counts: map<string, nat> := map[];
    var i := 0;
    while i < |cs|
      invariant 0 <= i <= |cs|
      invariant Frequency(keys, counts) == Tally(AllSkills(cs[..i]))
    {
      var skills := SkillsOf(cs[i]);
      var j := 0;
      assert skills[..0] == [];
      assert AllSkills(cs[..i]) + skills[..0] == AllSkills(cs[..i]);
      while j < |skills|
        invariant 0 <= j <= |skills|
        invariant Frequency(keys, counts) == Tally(AllSkills(cs[..i]) + skills[..j])
      {
        TallyStep(AllSkills(cs[..i]) + skills[..j], skills[j]);
        assert AllSkills(cs[..i]) + skills[..j + 1] == AllSkills(cs[..i]) + skills[..j] + [skills[j]];
        keys, counts := Count(keys, counts, skills[j]);
        j := j + 1;
      }
      assert skills[..j] == skills;
      AllSkillsStep(cs, i);
      i := i + 1;
    }
    assert cs[..i] == cs;
    f := Frequency(keys, counts);
  }

  /** `locationDistribution`: one count per candidate with a (non-empty) city. */
  method LocationDistribution(cs: seq<Candidate>) returns (f: Frequency)
    ensures f == Tally(Cities(cs))
  {
    var keys: seq<string> := [];
    var counts: map<string, nat> := map[];
    var i := 0;
    assert cs[..0] == [];
    while i < |cs|
      invariant 0 <= i <= |cs|
      invariant Frequency(keys, counts) == Tally(Cities(cs[..i]))
    {
      CityTallyStep(cs, i);
      if cs[i].city != "" {
        keys, counts := Count(keys, counts, cs[i].city);
      }
      i := i + 1;
    }
    assert cs[..i] == cs;
    f := Frequency(keys, counts);
  }

  /** The city table has only non-empty keys and counts at most one per candidate. */
  lemma LocationTotals(cs: seq<Candidate>)
    ensures "" !in Tally(Cities(cs)).counts
    ensures Total(Tally(Cities(cs))) <= |cs|
  {
    TallyCounts(Cities(cs));
    TallyTotal(Cities(cs));
  }

  /** The skill counts add up to the number of skill entries. */
  lemma SkillTotals(cs: seq<Candidate>)
    ensures Total(Tally(AllSkills(cs))) == |AllSkills(cs)|
  {
    TallyTotal(AllSkills(cs));
  }

  /** `Object.keys(skillFrequency).length`, shown as "Skills Únicas". */
  function UniqueSkills(cs: seq<Candidate>): (r: nat)
    ensures r == |set s | s in AllSkills(cs)|
  {
    TallyKeyCount(AllSkills(cs));
    |Tally(AllSkills(cs)).keys|
  }

  ghost predicate NoRepeatedSkill(c: Candidate) {
    forall i, j :: 0 <= i < j < |SkillsOf(c)| ==> SkillsOf(c)[i] != SkillsOf(c)[j]
  }

  lemma {:induction false} AtMostOnce(xs: seq<string>, k: string)
    requires Distinct(xs)
    ensures multiset(xs)[k] <= 1
  {
    if xs != [] {
      var p := xs[..|xs| - 1];
      assert xs == p + [xs[|xs| - 1]];
      AtMostOnce(p, k);
      if xs[|xs| - 1] == k {
        assert k !in p;
      }
    }
  }

  /** When no candidate lists a skill twice, a skill's count is at most the
      number of candidates, so its bar stays within 100%. */
  lemma {:induction false} SkillCountAtMostCandidates(cs: seq<Candidate>, k: string)
    requires forall c :: c in cs ==> NoRepeatedSkill(c)
    ensures multiset(AllSkills(cs))[k] <= |cs|
  {
    if cs != [] {
      var p := cs[..|cs| - 1];
      var c := cs[|cs| - 1];
      assert forall d :: d in p ==> d in cs;
      SkillCountAtMostCandidates(p, k);
      assert c in cs;
      AtMostOnce(SkillsOf(c), k);
    }
  }

  // ---------------------------------------------------------------------------
  // Top entries
  // ---------------------------------------------------------------------------

  /** The comparator `(a, b) => b[1] - a[1]` as an ascending key. */
  function ByCountDesc(e: (string, nat)): real {
    -(e.1 as real)
  }

  /** `.sort(...).slice(0, k)` over the table's entries. */
  function Top(es: seq<(string, nat)>, k: nat): (r: seq<(string, nat)>)
    ensures |r| == if |es| < k then |es| else k
    ensures forall i, j :: 0 <= i < j < |r| ==> r[i].1 >= r[j].1
    ensures multiset(r) <= multiset(es)
  {
    var s := StableSort.Sort(es, ByCountDesc);
    var r := if |s| <= k then s else s[..k];
    assert s == r + s[|r|..];
    assert multiset(s) == multiset(r) + multiset(s[|r|..]);
    r
  }

  /** Nothing left out of the top entries counts more than an entry kept. */
  lemma TopIsTop(es: seq<(string, nat)>, k: nat)
    ensures forall e, i :: e in multiset(es) - multiset(Top(es, k)) && 0 <= i < |Top(es, k)| ==>
              e.1 <= Top(es, k)[i].1
  {
    var s := StableSort.Sort(es, ByCountDesc);
    var r := Top(es, k);
    var n := |r|;
    assert r == s[..n];
    MultisetSplit(s, n);
    SortedTail(s, n);
  }

  /** What remains of a list once a prefix is taken away is its suffix. */
  lemma MultisetSplit<T>(s: seq<T>, n: nat)
    requires n <= |s|
    ensures multiset(s) - multiset(s[..n]) == multiset(s[n..])
  {
    assert s == s[..n] + s[n..];
  }

  /** In a list sorted by falling count, nothing after position `n` counts
      more than an entry before it. */
  lemma SortedTail(s: seq<(string, nat)>, n: nat)
    requires StableSort.SortedBy(s, ByCountDesc) && n <= |s|
    ensures forall e, i :: e in multiset(s[n..]) && 0 <= i < n ==> e.1 <= s[..n][i].1
  {
    forall e: (string, nat), i: int | e in multiset(s[n..]) && 0 <= i < n ensures e.1 <= s[..n][i].1 {
      var j :| 0 <= j < |s| - n && s[n..][j] == e;
      assert s[n + j] == e && s[..n][i] == s[i];
      assert ByCountDesc(s[i]) <= ByCountDesc(s[n + j]);
    }
  }

  lemma {:induction false} WithKeyPrefix(s: seq<(string, nat)>, n: nat, key: real)
    requires n <= |s|
    ensures StableSort.WithKey(s[..n], ByCountDesc, key) <= StableSort.WithKey(s, ByCountDesc, key)
  {
    if n > 0 {
      assert s[..n][1..] == s[1..][..n - 1];
      WithKeyPrefix(s[1..], n - 1, key);
    }
  }

  /** Entries with equal counts keep the order `Object.entries` gave them. */
  lemma TopKeepsTieOrder(es: seq<(string, nat)>, k: nat, key: real)
    ensures StableSort.WithKey(Top(es, k), ByCountDesc, key) <= StableSort.WithKey(es, ByCountDesc, key)
  {
    var s := StableSort.Sort(es, ByCountDesc);
    StableSort.SortIsStable(es, ByCountDesc, key);
    if |s| > k {
      WithKeyPrefix(s, k, key);
    }
  }

  /** `topSkills` and `topLocations`. */
  function TopSkills(cs: seq<Candidate>): seq<(string, nat)> {
    Top(Entries(Tally(AllSkills(cs))), 10)
  }

  function TopLocations(cs: seq<Candidate>): seq<(string, nat)> {
    Top(Entries(Tally(Cities(cs))), 5)
  }

  /** A city in the top list has a count no larger than the number of candidates. */
  lemma TopLocationBounded(cs: seq<Candidate>, i: nat)
    requires i < |TopLocations(cs)|
    ensures TopLocations(cs)[i].1 <= |cs|
  {
    var f := Tally(Cities(cs));
    var es := Entries(f);
    var e := TopLocations(cs)[i];
    assert e in multiset(TopLocations(cs));
    assert e in es;
    var j :| 0 <= j < |es| && es[j] == e;
    TallyCounts(Cities(cs));
    MultisetCountAtMostLength(Cities(cs), e.0);
  }

  lemma MultisetCountAtMostLength(xs: seq<string>, k: string)
    ensures multiset(xs)[k] <= |xs|
  {
    assert multiset(xs)[k] <= |multiset(xs)|;
  }

  // ---------------------------------------------------------------------------
  // Buckets
  // ---------------------------------------------------------------------------

  /** `candidates.filter(p).length`. */
  function CountWhere(cs: seq<Candidate>, p: Candidate -> bool): (r: nat)
    ensures r <= |cs|
  {
    if cs == [] then 0 else (if p(cs[0]) then 1 else 0) + CountWhere(cs[1..], p)
  }

  predicate UpTo2(c: Candidate) { c.experienceYears <= 2.0 }
  predicate From3To5(c: Candidate) { 3.0 <= c.experienceYears <= 5.0 }
  predicate From6To10(c: Candidate) { 6.0 <= c.experienceYears <= 10.0 }
  predicate Over10(c: Candidate) { c.experienceYears > 10.0 }

  /** The years no experience bucket takes. */
  predicate InNoRange(c: Candidate) {
    (2.0 < c.experienceYears < 3.0) || (5.0 < c.experienceYears < 6.0)
  }

  datatype ExperienceRanges = ExperienceRanges(upTo2: nat, from3To5: nat, from6To10: nat, over10: nat)

  /** `experienceRanges`. */
  function Experience(cs: seq<Candidate>): ExperienceRanges {
    ExperienceRanges(CountWhere(cs, UpTo2), CountWhere(cs, From3To5),
                     CountWhere(cs, From6To10), CountWhere(cs, Over10))
  }

  function RangesTotal(e: ExperienceRanges): nat {
    e.upTo2 + e.from3To5 + e.from6To10 + e.over10
  }

  /** Each candidate lands in at most one bucket: the buckets add up to the
      candidates minus those whose years fall between two buckets. */
  lemma {:induction false} ExperienceBucketsDisjoint(cs: seq<Candidate>)
    ensures RangesTotal(Experience(cs)) + CountWhere(cs, InNoRange) == |cs|
  {
    if cs != [] {
      ExperienceBucketsDisjoint(cs[1..]);
    }
  }

  predicate WholeYears(c: Candidate) {
    c.experienceYears == c.experienceYears.Floor as real
  }

  lemma {:induction false} WholeYearsInSomeRange(cs: seq<Candidate>)
    requires forall c :: c in cs ==> WholeYears(c)
    ensures CountWhere(cs, InNoRange) == 0
  {
    if cs != [] {
      assert cs[0] in cs;
      var y := cs[0].experienceYears;
      assert y == y.Floor as real;
      assert !InNoRange(cs[0]);
      assert forall c :: c in cs[1..] ==> c in cs;
      WholeYearsInSomeRange(cs[1..]);
    }
  }

  /** With whole years the four buckets cover every candidate. */
  lemma ExperienceBucketsCover(cs: seq<Candidate>)
    requires forall c :: c in cs ==> WholeYears(c)
    ensures RangesTotal(Experience(cs)) == |cs|
  {
    ExperienceBucketsDisjoint(cs);
    WholeYearsInSomeRange(cs);
  }

  /** Two and a half years of experience are counted in no bucket. */
  lemma ExperienceGap(c: Candidate)
    requires c.experienceYears == 2.5
    ensures RangesTotal(Experience([c])) == 0
  {
    assert [c][1..] == [];
  }

  predicate ScoreHigh(c: Candidate) { c.score >= 8.0 }
  predicate ScoreMid(c: Candidate) { 6.0 <= c.score < 8.0 }
  predicate ScoreLow(c: Candidate) { c.score < 6.0 }

  /** The three "Calidad del Match" counts split the candidates exactly. */
  lemma {:induction false} ScoreBucketsPartition(cs: seq<Candidate>)
    ensures CountWhere(cs, ScoreHigh) + CountWhere(cs, ScoreMid) + CountWhere(cs, ScoreLow) == |cs|
  {
    if cs != [] {
      ScoreBucketsPartition(cs[1..]);
    }
  }

  /** `(count / totalCandidates) * 100`. */
  function Percent(count: nat, total: nat): (r: real)
    requires total > 0
    ensures count <= total ==> 0.0 <= r <= 100.0
    ensures r == 100.0 <==> count == total
  {
    (count as real / total as real) * 100.0
  }

  // ---------------------------------------------------------------------------
  // The panel
  // ---------------------------------------------------------------------------

  datatype Summary = Summary(
    total: nat,
    skillFrequency: Frequency,
    topSkills: seq<(string, nat)>,
    experience: ExperienceRanges,
    locations: Frequency,
    topLocations: seq<(string, nat)>,
    scoreHigh: nat,
    scoreMid: nat,
    scoreLow: nat)

  /** What the panel shows: nothing for an empty list, otherwise the derived values. */
  function Analyze(cs: seq<Candidate>): (r: Option<Summary>)
    ensures r.None? <==> cs == []
    ensures r.Some? ==> r.value.total == |cs| > 0
    ensures r.Some? ==> |r.value.topSkills| <= 10 && |r.value.topLocations| <= 5
    ensures r.Some? ==> r.value.scoreHigh + r.value.scoreMid + r.value.scoreLow == |cs|
  {
    if cs == [] then None
    else
      ScoreBucketsPartition(cs);
      Some(Summary(|cs|, Tally(AllSkills(cs)), TopSkills(cs), Experience(cs),
                   Tally(Cities(cs)), TopLocations(cs),
                   CountWhere(cs, ScoreHigh), CountWhere(cs, ScoreMid), CountWhere(cs, ScoreLow)))
  }
}
