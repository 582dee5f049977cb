/** The helpers of the candidate profile page (src/pages/CandidateProfile.tsx):
    reading the search filters from the URL, highlighting and counting the
    skills that match them, cutting skill lists into grid columns, and
    choosing the CV category to show. */
module CandidateProfile {
  import opened Text
  import opened Candidates
  import RecruiterPanel

  // ---------------------------------------------------------------------------
  // Query parameters and filter sets
  // ---------------------------------------------------------------------------

  /** `SearchQueryParams`: a key is present only with a non-empty value. */
  datatype QueryParams = QueryParams(required: Option<string>, preferred: Option<string>, jd: Option<string>)

  /** `sp.get(name) || ''` followed by `if (value) params.name = value`. */
  function KeepNonEmpty(v: Option<string>): (r: Option<string>)
    ensures r.Some? <==> v.Some? && v.value != ""
    ensures r.Some? ==> r.value == v.value
  {
    match v
    case Some(s) => if s != "" then Some(s) else None
    case None => None
  }

  /** `queryParams`, from the values `URLSearchParams.get` returns (`None` for a missing key). */
  function ReadQuery(required: Option<string>, preferred: Option<string>, jd: Option<string>): (r: QueryParams)
    ensures r.required.Some? <==> required.Some? && required.value != ""
    ensures r.preferred.Some? <==> preferred.Some? && preferred.value != ""
    ensures r.jd.Some? <==> jd.Some? && jd.value != ""
  {
    QueryParams(KeepNonEmpty(required), KeepNonEmpty(preferred), KeepNonEmpty(jd))
  }

  /** `requiredSet` / `preferredSet`: the trimmed, non-empty comma pieces, case kept. */
  function FilterSet(raw: Option<string>): (r: set<string>)
    ensures raw.None? ==> r == {}
    ensures raw.Some? ==> forall t :: t in r <==> t in RecruiterPanel.CommaList(raw.value)
    ensures forall t :: t in r ==> t != "" && IsTrimmed(t) && ',' !in t
  {
    match raw
    case None => {}
    case Some(s) => set t | t in RecruiterPanel.CommaList(s)
  }

  // ---------------------------------------------------------------------------
  // Highlighting and counting
  // ---------------------------------------------------------------------------

  /** The three skill styles `skillClass` chooses between. */
  datatype Emphasis = RequiredStyle | PreferredStyle | Neutral

  /** `skillClass`: tested against the lower-cased skill, required first. */
  function SkillClass(s: string, required: set<string>, preferred: set<string>): (r: Emphasis)
    ensures r == RequiredStyle <==> Lower(s) in required
    ensures r == PreferredStyle <==> Lower(s) !in required && Lower(s) in preferred
    ensures r == Neutral <==> Lower(s) !in required && Lower(s) !in preferred
  {
    var key := Lower(s);
    if key in required then RequiredStyle
    else if key in preferred then PreferredStyle
    else Neutral
  }

  /** A filter piece with a capital letter never highlights anything, since
      the pieces keep their case and skills are lower-cased before the test. */
  lemma CapitalisedFilterNeverMatches(s: string, required: set<string>, preferred: set<string>, t: string)
    requires !IsLower(t)
    ensures Lower(s) != t
    ensures required == {t} ==> SkillClass(s, required, preferred) != RequiredStyle
  {
    NotLowerNeverALowering(t, s);
  }

  /** The number of skills in the required set. */
  function RequiredHits(lower: seq<string>, required: set<string>): (r: nat)
    ensures r <= |lower|
  {
    if lower == [] then 0
    else (if lower[0] in required then 1 else 0) + RequiredHits(lower[1..], required)
  }

  /** The number of skills in the preferred set but not the required one. */
  function PreferredHits(lower: seq<string>, required: set<string>, preferred: set<string>): (r: nat)
    ensures r <= |lower|
  {
    if lower == [] then 0
    else (if lower[0] !in required && lower[0] in preferred then 1 else 0) +
         PreferredHits(lower[1..], required, preferred)
  }

  /** Each skill is counted at most once. */
  lemma {:induction false} HitsAtMostSkills(lower: seq<string>, required: set<string>, preferred: set<string>)
    ensures RequiredHits(lower, required) + PreferredHits(lower, required, preferred) <= |lower|
  {
    if lower != [] {
      HitsAtMostSkills(lower[1..], required, preferred);
    }
  }

  /** The number of skills `skillClass` shows in the given style. */
  function CountStyle(skills: seq<string>, required: set<string>, preferred: set<string>, style: Emphasis): nat {
    if skills == [] then 0
    else (if SkillClass(skills[0], required, preferred) == style then 1 else 0) +
         CountStyle(skills[1..], required, preferred, style)
  }

  /** The counts are those of the highlighting: `req` is the number of skills
      shown in the required style, `pref` the number in the preferred one. */
  lemma {:induction false} HitsFollowSkillClass(skills: seq<string>, required: set<string>, preferred: set<string>)
    ensures RequiredHits(RecruiterPanel.LowerAll(skills), required) ==
            CountStyle(skills, required, preferred, RequiredStyle)
    ensures PreferredHits(RecruiterPanel.LowerAll(skills), required, preferred) ==
            CountStyle(skills, required, preferred, PreferredStyle)
  {
    if skills != [] {
      HitsFollowSkillClass(skills[1..], required, preferred);
      assert RecruiterPanel.LowerAll(skills)[1..] == RecruiterPanel.LowerAll(skills[1..]);
    }
  }

  /** `countMatches`: one pass over the lower-cased skills, bumping `req` for a
      required skill and otherwise `pref` for a preferred one. */
  method CountMatches(skills: seq<string>, required: set<string>, preferred: set<string>)
    returns (req: nat, pref: nat)
    ensures req == RequiredHits(RecruiterPanel.LowerAll(skills), required)
    ensures pref == PreferredHits(RecruiterPanel.LowerAll(skills), required, preferred)
    ensures req + pref <= |skills|
  {
    var lower := RecruiterPanel.LowerAll(skills);
    req, pref := 0, 0;
    var i := |lower|;
    // The counts of the suffix from `i` on; walking backwards keeps each
    // step a single unfolding of the definitions.
    while i > 0
      invariant 0 <= i <= |lower|
      invariant req == RequiredHits(lower[i..], required)
      invariant pref == PreferredHits(lower[i..], required, preferred)
    {
      i := i - 1;
      assert lower[i..][1..] == lower[i + 1..];
      var s := lower[i];
      if s in required {
        req := req + 1;
      } else if s in preferred {
        pref := pref + 1;
      }
    }
    assert lower[0..] == lower;
    HitsAtMostSkills(lower, required, preferred);
  }

  // ---------------------------------------------------------------------------
  // Skill columns
  // ---------------------------------------------------------------------------

  /** `chunkSkills`: consecutive slices of `size` skills, the last one shorter. */
  function Chunked(s: seq<string>, size: nat): seq<seq<string>>
    requires size > 0
    decreases |s|
  {
    if s == [] then []
    else if |s| <= size then [s]
    else [s[..size]] + Chunked(s[size..], size)
  }

  function Flatten(chunks: seq<seq<string>>): seq<string> {
    if chunks == [] then [] else chunks[0] + Flatten(chunks[1..])
  }

  /** The chunks put back together are the list. */
  lemma {:induction false} ChunksConcatenate(s: seq<string>, size: nat)
    requires size > 0
    ensures Flatten(Chunked(s, size)) == s
    decreases |s|
  {
    var c := Chunked(s, size);
    if s == [] {
    } else if |s| <= size {
      assert c == [s] && c[1..] == [];
    } else {
      ChunksConcatenate(s[size..], size);
      assert c[0] == s[..size] && c[1..] == Chunked(s[size..], size);
      assert Flatten(c) == s[..size] + s[size..];
      assert s[..size] + s[size..] == s;
    }
  }

  /** No chunk is empty or longer than `size`, and every chunk but the last is full. */
  lemma {:induction false} ChunksFull(s: seq<string>, size: nat)
    requires size > 0
    ensures forall i :: 0 <= i < |Chunked(s, size)| ==> 0 < |Chunked(s, size)[i]| <= size
    ensures forall i :: 0 <= i < |Chunked(s, size)| - 1 ==> |Chunked(s, size)[i]| == size
    decreases |s|
  {
    if s != [] && |s| > size {
      ChunksFull(s[size..], size);
      assert Chunked(s, size)[1..] == Chunked(s[size..], size);
    }
  }

  /** There are `ceil(|s| / size)` chunks: enough to hold the list, and one
      fewer would not be. */
  lemma {:induction false} ChunkCount(s: seq<string>, size: nat)
    requires size > 0
    ensures |s| <= |Chunked(s, size)| * size
    ensures s != [] ==> (|Chunked(s, size)| - 1) * size < |s|
    decreases |s|
  {
    if s != [] && |s| > size {
      var k := |Chunked(s[size..], size)|;
      ChunkCount(s[size..], size);
      assert |Chunked(s, size)| == k + 1;
      assert (k + 1) * size == k * size + size;
      assert (k - 1) * size + size == k * size;
    }
  }

  /** The chunks still to be pushed once the loop index has reached `i`. */
  function ChunksFrom(s: seq<string>, i: nat, size: nat): seq<seq<string>>
    requires size > 0
  {
    if i < |s| then Chunked(s[i..], size) else []
  }

  /** One turn of the loop: the slice `[i, min(i + size, |s|))` and then the
      chunks from `i + size`. */
  lemma ChunkedStep(s: seq<string>, i: nat, size: nat)
    requires size > 0 && i < |s|
    ensures var end := if i + size < |s| then i + size else |s|;
      ChunksFrom(s, i, size) == [s[i..end]] + ChunksFrom(s, i + size, size)
  {
    var t := s[i..];
    if i + size < |s| {
      assert t[..size] == s[i..i + size];
      assert t[size..] == s[i + size..];
    } else {
      assert s[i..|s|] == t;
    }
  }

  /** The `for` loop of `chunkSkills`: slices `[i, i + size)` pushed while
      `i < |s|`. With `size` 0 the source loops forever; here the caller
      must pass a positive size. */
  method ChunkSkills(skills: seq<string>, size: nat) returns (chunks: seq<seq<string>>)
    requires size > 0
    ensures chunks == Chunked(skills, size)
  {
    chunks := [];
    var i := 0;
    assert skills[0..] == skills;
    while i < |skills|
      invariant chunks + ChunksFrom(skills, i, size) == Chunked(skills, size)
      decreases |skills| - i
    {
      var end := if i + size < |skills| then i + size else |skills|;
      ChunkedStep(skills, i, size);
      var rest := ChunksFrom(skills, i + size, size);
      assert (chunks + [skills[i..end]]) + rest == chunks + ([skills[i..end]] + rest);
      chunks := chunks + [skills[i..end]];
      i := i + size;
    }
  }

  /** `Math.max(1, Math.ceil(n / 5))`. */
  function GridColumns(n: nat): (r: nat)
    ensures r >= 1
  {
    var c := (n + 4) / 5;
    if c < 1 then 1 else c
  }

  /** For a non-empty list the grid has one column per chunk of five. */
  lemma GridColumnsMatchChunks(list: seq<string>)
    requires list != []
    ensures GridColumns(|list|) == |Chunked(list, 5)|
  {
    ChunkCount(list, 5);
  }

  // ---------------------------------------------------------------------------
  // Categories
  // ---------------------------------------------------------------------------

  datatype Category = Category(name: string, primarySkills: Option<seq<string>>)

  /** `(res.categories?.[0]?.name) || ''`. */
  function FirstCategoryName(cats: seq<Category>): (r: string)
    ensures cats == [] ==> r == ""
    ensures cats != [] ==> r == cats[0].name
  {
    if cats == [] then "" else cats[0].name
  }

  /** `prev || recCat || firstCat`: the category kept or chosen on load. */
  function ActiveCategory(prev: string, recCat: Option<string>, cats: seq<Category>): (r: string)
    ensures prev != "" ==> r == prev
    ensures prev == "" && recCat.Some? && recCat.value != "" ==> r == recCat.value
    ensures prev == "" && (recCat.None? || recCat.value == "") ==> r == FirstCategoryName(cats)
  {
    if prev != "" then prev
    else if recCat.Some? && recCat.value != "" then recCat.value
    else FirstCategoryName(cats)
  }

  /** `catList.find(c => c.name === activeCat) || null`. */
  function Active(cats: seq<Category>, activeCat: string): (r: Option<Category>)
    ensures r.None? <==> forall c :: c in cats ==> c.name != activeCat
    ensures r.Some? ==> exists i :: 0 <= i < |cats| && cats[i] == r.value && r.value.name == activeCat &&
                          forall j :: 0 <= j < i ==> cats[j].name != activeCat
  {
    if cats == [] then None
    else if cats[0].name == activeCat then Some(cats[0])
    else
      var r := Active(cats[1..], activeCat);
      assert forall c :: c in cats ==> c == cats[0] || c in cats[1..];
      if r.Some? then
        var i :| 0 <= i < |cats[1..]| && cats[1..][i] == r.value && r.value.name == activeCat &&
                 forall j :: 0 <= j < i ==> cats[1..][j].name != activeCat;
        assert cats[i + 1] == r.value;
        assert forall j :: 1 <= j < i + 1 ==> cats[j] == cats[1..][j - 1];
        r
      else r
  }

  /** With nothing selected before and no recommended CV, the first category is shown. */
  lemma FreshLoadShowsFirstCategory(cats: seq<Category>)
    requires cats != []
    ensures Active(cats, ActiveCategory("", None, cats)) == Some(cats[0])
  {
  }
}
