/** The recruiter panel's result pipeline (src/pages/RecruiterPanel.tsx):
    the filter text is parsed into tokens, each visible skill gets a label,
    the ranking result is sorted and cut into pages, and the page number is
    kept in range by the pagination controls. */
module RecruiterPanel {
  import opened Text
  import opened Candidates
  import StableSort

  // ---------------------------------------------------------------------------
  // Filter parsing
  // ---------------------------------------------------------------------------

  function TrimAll(xs: seq<string>): (r: seq<string>)
    ensures |r| == |xs| && forall i {:trigger r[i]} :: 0 <= i < |xs| ==> r[i] == Trim(xs[i])
  {
    seq(|xs|, i requires 0 <= i < |xs| => Trim(xs[i]))
  }

  function LowerAll(xs: seq<string>): (r: seq<string>)
    ensures |r| == |xs| && forall i {:trigger r[i]} :: 0 <= i < |xs| ==> r[i] == Lower(xs[i])
  {
    seq(|xs|, i requires 0 <= i < |xs| => Lower(xs[i]))
  }

  /** `raw.split(',').map(s => s.trim()).filter(Boolean)`: the comma list as
      the ranking request sends it (skills and cities keep their case). */
  function CommaList(raw: string): (r: seq<string>)
    ensures forall t :: t in r ==> t != "" && IsTrimmed(t) && ',' !in t
  {
    var pieces := Split(raw, ',');
    SplitPiecesAvoidSeparator(raw, ',');
    forall i | 0 <= i < |pieces| ensures ',' !in Trim(pieces[i]) {
      assert pieces[i] in pieces;
      TrimChars(pieces[i]);
    }
    NonEmpty(TrimAll(pieces))
  }

  /** A comma splits the comma list: the items before it, then those after it. */
  lemma CommaListAround(a: string, b: string)
    ensures CommaList(a + [','] + b) == CommaList(a) + CommaList(b)
  {
    SplitAround(a, b, ',');
    NonEmptyTrimConcat(Split(a, ','), Split(b, ','));
  }

  /** A trimmed item without commas is a comma list of its own. */
  lemma CommaListOfItem(item: string)
    requires item != "" && IsTrimmed(item) && ',' !in item
    ensures CommaList(item) == [item]
  {
    SplitJoin([item], ',');
    assert Join([item], [',']) == item;
    var t := TrimAll([item]);
    assert t[0] == Trim(item) == item by {
      TrimOfTrimmed(item);
    }
    assert t == [item];
    assert [item][1..] == [];
  }

  /** `parsedRequired` / `parsedPreferred`: the comma pieces, trimmed, then
      lower-cased, with the empty ones dropped. */
  function ParseSkillList(raw: string): (r: seq<string>)
    ensures forall t :: t in r ==> t != "" && IsTrimmed(t) && IsLower(t)
  {
    var pieces := Split(raw, ',');
    var lowered := seq(|pieces|, i requires 0 <= i < |pieces| => Lower(Trim(pieces[i])));
    forall i | 0 <= i < |pieces| ensures IsTrimmed(lowered[i]) && IsLower(lowered[i]) {
      LowerIsLower(Trim(pieces[i]));
      LowerKeepsTrimmed(Trim(pieces[i]));
    }
    NonEmpty(lowered)
  }

  lemma {:induction false} NonEmptyLowerAll(xs: seq<string>)
    ensures NonEmpty(LowerAll(xs)) == LowerAll(NonEmpty(xs))
  {
    if xs != [] {
      NonEmptyLowerAll(xs[1..]);
      assert LowerAll(xs) == [Lower(xs[0])] + LowerAll(xs[1..]);
      if xs[0] != "" {
        assert LowerAll([xs[0]] + NonEmpty(xs[1..])) == [Lower(xs[0])] + LowerAll(NonEmpty(xs[1..]));
      }
    }
  }

  /** The highlighting lists are exactly the request lists, lower-cased: the
      two parsers differ only in the case of what they keep. */
  lemma ParsedIsLoweredCommaList(raw: string)
    ensures ParseSkillList(raw) == LowerAll(CommaList(raw))
  {
    var pieces := Split(raw, ',');
    assert seq(|pieces|, i requires 0 <= i < |pieces| => Lower(Trim(pieces[i]))) == LowerAll(TrimAll(pieces));
    NonEmptyLowerAll(TrimAll(pieces));
  }

  /** A field made only of commas and whitespace (the empty field included)
      gives no tokens, never `[""]`. */
  lemma NoTokensFromSeparators(raw: string)
    requires forall i :: 0 <= i < |raw| ==> raw[i] == ',' || IsSpace(raw[i])
    ensures CommaList(raw) == [] && ParseSkillList(raw) == []
  {
    var pieces := Split(raw, ',');
    SplitPiecesAvoidSeparator(raw, ',');
    SplitPiecesFromInput(raw, ',');
    forall i | 0 <= i < |pieces| ensures Trim(pieces[i]) == "" {
      var p := pieces[i];
      assert p in pieces;
      assert AllSpace(p) by {
        forall k | 0 <= k < |p| ensures IsSpace(p[k]) {
          assert p[k] in p;
        }
      }
      TrimOfSpace(p);
    }
    NonEmptyOfEmpties(TrimAll(pieces));
    ParsedIsLoweredCommaList(raw);
  }

  /** `applyPreset`: a preset list is put in the text field joined by ", ". */
  function PresetText(items: seq<string>): string {
    Join(items, ", ")
  }

  function Spaced(items: seq<string>): (r: seq<string>)
    requires |items| >= 1
    ensures |r| == |items| && r[0] == items[0]
    ensures forall i {:trigger r[i]} :: 1 <= i < |items| ==> r[i] == " " + items[i]
  {
    [items[0]] + seq(|items| - 1, i requires 0 <= i < |items| - 1 => " " + items[i + 1])
  }

  lemma {:induction false} JoinCommaSpace(items: seq<string>)
    requires |items| >= 1
    ensures Join(items, ", ") == Join(Spaced(items), ",")
    decreases |items|
  {
    if |items| > 1 {
      JoinCommaSpace(items[1..]);
      assert Spaced(items)[1..] == Spaced(items[1..])[0 := " " + items[1]];
      var tail := Join(items[1..], ", ");
      assert Join(Spaced(items[1..]), ",") == tail;
      if |items| == 2 {
        assert Join(Spaced(items)[1..], ",") == " " + items[1];
      } else {
        assert Join(Spaced(items)[1..], ",") == " " + items[1] + "," + Join(Spaced(items[1..])[1..], ",");
        assert tail == items[1] + "," + Join(Spaced(items[1..])[1..], ",");
      }
      assert Join(items, ", ") == items[0] + ", " + tail;
      assert Join(Spaced(items), ",") == items[0] + "," + Join(Spaced(items)[1..], ",");
    }
  }

  /** Applying a preset and parsing the field again gives the preset's list
      back, lower-cased, as long as its items are non-empty, trimmed and free
      of commas (true of every shipped preset). */
  lemma PresetRoundTrip(items: seq<string>)
    requires forall t :: t in items ==> t != "" && IsTrimmed(t) && ',' !in t
    ensures ParseSkillList(PresetText(items)) == LowerAll(items)
  {
    if items == [] {
      NoTokensFromSeparators("");
    } else {
      var sp := Spaced(items);
      JoinCommaSpace(items);
      SpacedCommaFree(items);
      SplitJoin(sp, ',');
      SpacedTrims(items);
      NonEmptyOfNonEmpty(items);
      ParsedIsLoweredCommaList(PresetText(items));
    }
  }

  lemma SpacedCommaFree(items: seq<string>)
    requires |items| >= 1
    requires forall t :: t in items ==> ',' !in t
    ensures forall q :: q in Spaced(items) ==> ',' !in q
  {
    var sp := Spaced(items);
    forall i | 0 <= i < |sp| ensures ',' !in sp[i] {
      assert items[i] in items;
      if i > 0 {
        assert sp[i] == " " + items[i];
      }
    }
  }

  lemma SpacedTrims(items: seq<string>)
    requires |items| >= 1
    requires forall t :: t in items ==> IsTrimmed(t)
    ensures TrimAll(Spaced(items)) == items
  {
    var t := TrimAll(Spaced(items));
    forall i | 0 <= i < |t| ensures t[i] == items[i] {
      assert items[i] in items;
      SpacedTrimAt(items, i);
    }
  }

  /** Each spaced item trims back to the item. */
  lemma SpacedTrimAt(items: seq<string>, i: int)
    requires 0 <= i < |items| && IsTrimmed(items[i])
    ensures Trim(Spaced(items)[i]) == items[i]
  {
    var sp := Spaced(items);
    if i > 0 {
      assert sp[i] == " " + items[i];
      assert AllSpace(" ");
      TrimSkipsLeadingSpace(" ", items[i]);
    }
    TrimOfTrimmed(items[i]);
  }

  /** The characters `/[^a-zá-ú0-9+#.]+/i` does NOT split on: with the `i` flag
      the class also admits the capitals whose small letters it names. */
  predicate IsTokenChar(c: char) {
    ('a' <= c <= 'z') || ('0' <= c <= '9') || c == '+' || c == '#' || c == '.' ||
    ('\U{E1}' <= c <= '\U{FA}') ||
    ('A' <= c <= 'Z') || ('\U{C1}' <= c <= '\U{DA}' && c != '\U{D7}')
  }

  /** The characters a job-description token can hold once lower-cased. */
  predicate IsLowerTokenChar(c: char) {
    ('a' <= c <= 'z') || ('0' <= c <= '9') || c == '+' || c == '#' || c == '.' ||
    ('\U{E1}' <= c <= '\U{FA}')
  }

  /** A word made only of lower-case token characters. */
  predicate IsTokenWord(w: string) {
    forall k :: 0 <= k < |w| ==> IsLowerTokenChar(w[k])
  }

  /** `text.split(regex)` where every character outside the class ends a piece. */
  function SplitOnNonToken(s: string): (r: seq<string>)
    ensures |r| >= 1
    decreases |s|
  {
    if s == [] then [""]
    else
      var t := SplitOnNonToken(s[1..]);
      if !IsTokenChar(s[0]) then [""] + t
      else [[s[0]] + t[0]] + t[1..]
  }

  /** Pieces hold only token characters, all taken from the input. */
  lemma {:induction false} SplitOnNonTokenPieces(s: string)
    ensures forall p :: p in SplitOnNonToken(s) ==>
              forall k :: 0 <= k < |p| ==> IsTokenChar(p[k]) && p[k] in s
    decreases |s|
  {
    if s != [] {
      var t := SplitOnNonToken(s[1..]);
      SplitOnNonTokenPieces(s[1..]);
      assert forall ch :: ch in s[1..] ==> ch in s;
      if IsTokenChar(s[0]) {
        assert t[0] in t;
        assert forall p :: p in t[1..] ==> p in t;
      }
    }
  }

  /** `jdTokens`: the job description lower-cased and split on every maximal
      run of characters outside the token class, pieces trimmed and the empty
      ones dropped. */
  function JdTokens(jd: string): (r: seq<string>)
    ensures forall t :: t in r ==> t != "" && IsLower(t) && IsTokenWord(t)
  {
    var pieces := SplitOnNonToken(Lower(jd));
    forall p | p in pieces ensures Trim(p) == p && IsLower(p) && IsTokenWord(p) {
      JdPiece(jd, p);
    }
    assert TrimAll(pieces) == pieces;
    NonEmpty(TrimAll(pieces))
  }

  lemma JdPiece(jd: string, p: string)
    requires p in SplitOnNonToken(Lower(jd))
    ensures Trim(p) == p && IsLower(p) && IsTokenWord(p)
  {
    var low := Lower(jd);
    SplitOnNonTokenPieces(low);
    forall k | 0 <= k < |p| ensures IsLowerFixed(p[k]) && IsLowerTokenChar(p[k]) {
      var j :| 0 <= j < |low| && low[j] == p[k];
      LowerCharIsLower(jd[j]);
      LoweredTokenChar(p[k]);
    }
    if p != [] {
      NotSpace(p[0]);
      NotSpace(p[|p| - 1]);
    }
    TrimOfTrimmed(p);
  }

  /** A token character that no lower-casing changes is a lower-case token character. */
  lemma LoweredTokenChar(c: char)
    requires IsTokenChar(c) && IsLowerFixed(c)
    ensures IsLowerTokenChar(c)
  {
  }

  lemma NotSpace(c: char)
    requires IsLowerTokenChar(c)
    ensures !IsSpace(c)
  {
  }

  lemma {:induction false} SplitOnNonTokenAt(a: string, c: char, b: string)
    requires !IsTokenChar(c)
    ensures SplitOnNonToken(a + [c] + b) == SplitOnNonToken(a) + SplitOnNonToken(b)
    decreases |a|
  {
    if a == [] {
      assert a + [c] + b == [c] + b;
      SplitOnNonTokenSep(c, b);
    } else {
      SplitOnNonTokenAt(a[1..], c, b);
      SplitOnNonTokenAtStep(a, c, b);
    }
  }

  /** One step of SplitOnNonTokenAt: the leading character of `a` joins the
      first piece or starts a new one on both sides alike. */
  lemma SplitOnNonTokenAtStep(a: string, c: char, b: string)
    requires a != []
    requires SplitOnNonToken(a[1..] + [c] + b) == SplitOnNonToken(a[1..]) + SplitOnNonToken(b)
    ensures SplitOnNonToken(a + [c] + b) == SplitOnNonToken(a) + SplitOnNonToken(b)
  {
    var rest := a[1..] + [c] + b;
    ConsRest(a, c, b);
    if IsTokenChar(a[0]) {
      SplitOnNonTokenJoin(a[0], rest);
      SplitOnNonTokenJoin(a[0], a[1..]);
      JoinFirstPiece([a[0]], SplitOnNonToken(a[1..]), SplitOnNonToken(b));
    } else {
      SplitOnNonTokenSep(a[0], rest);
      SplitOnNonTokenSep(a[0], a[1..]);
    }
  }

  lemma ConsRest(a: string, c: char, b: string)
    requires a != []
    ensures a + [c] + b == [a[0]] + (a[1..] + [c] + b) && [a[0]] + a[1..] == a
  {
  }

  /** A leading separator starts a new, empty piece. */
  lemma SplitOnNonTokenSep(ch: char, s: string)
    requires !IsTokenChar(ch)
    ensures SplitOnNonToken([ch] + s) == [""] + SplitOnNonToken(s)
  {
    assert ([ch] + s)[1..] == s;
  }

  /** A leading token character joins the first piece. */
  lemma SplitOnNonTokenJoin(ch: char, s: string)
    requires IsTokenChar(ch)
    ensures var t := SplitOnNonToken(s); SplitOnNonToken([ch] + s) == [[ch] + t[0]] + t[1..]
  {
    assert ([ch] + s)[1..] == s;
  }

  /** Prefixing the first piece of a list commutes with appending more pieces. */
  lemma JoinFirstPiece(pre: string, xs: seq<string>, ys: seq<string>)
    requires xs != []
    ensures [pre + (xs + ys)[0]] + (xs + ys)[1..] == ([pre + xs[0]] + xs[1..]) + ys
  {
    assert (xs + ys)[0] == xs[0];
    assert (xs + ys)[1..] == xs[1..] + ys;
  }

  /** Trimming piece by piece distributes over concatenation. */
  lemma TrimAllConcat(xs: seq<string>, ys: seq<string>)
    ensures TrimAll(xs + ys) == TrimAll(xs) + TrimAll(ys)
  {
    var zs := xs + ys;
    var l := TrimAll(zs);
    var a, b := TrimAll(xs), TrimAll(ys);
    forall i | 0 <= i < |zs| ensures l[i] == (a + b)[i] {
      var x := if i < |xs| then xs[i] else ys[i - |xs|];
      assert zs[i] == x by { ConcatAt(xs, ys, i); }
      assert (a + b)[i] == Trim(x) by { ConcatAt(a, b, i); }
      assert l[i] == Trim(zs[i]);
    }
  }

  /** Indexing into a concatenation. */
  lemma ConcatAt<T>(a: seq<T>, b: seq<T>, i: int)
    requires 0 <= i < |a| + |b|
    ensures (a + b)[i] == if i < |a| then a[i] else b[i - |a|]
  {
  }

  lemma NonEmptyTrimConcat(xs: seq<string>, ys: seq<string>)
    ensures NonEmpty(TrimAll(xs + ys)) == NonEmpty(TrimAll(xs)) + NonEmpty(TrimAll(ys))
  {
    TrimAllConcat(xs, ys);
    NonEmptyConcat(TrimAll(xs), TrimAll(ys));
  }

  lemma LowerConcat(a: string, b: string)
    ensures Lower(a + b) == Lower(a) + Lower(b)
  {
    assert forall i :: 0 <= i < |a + b| ==> Lower(a + b)[i] == (Lower(a) + Lower(b))[i];
  }

  /** Any character outside the token class separates tokens: the tokens of
      `a`, the separator and `b` are those of `a` followed by those of `b`. */
  lemma JdSeparator(a: string, c: char, b: string)
    requires !IsTokenChar(c)
    ensures JdTokens(a + [c] + b) == JdTokens(a) + JdTokens(b)
  {
    LowerConcat(a + [c], b);
    LowerConcat(a, [c]);
    assert Lower([c]) == [LowerChar(c)];
    assert Lower(a + [c] + b) == Lower(a) + [LowerChar(c)] + Lower(b);
    SplitOnNonTokenAt(Lower(a), LowerChar(c), Lower(b));
    NonEmptyTrimConcat(SplitOnNonToken(Lower(a)), SplitOnNonToken(Lower(b)));
  }

  lemma {:induction false} SplitWord(w: string)
    requires forall k :: 0 <= k < |w| ==> IsTokenChar(w[k])
    ensures SplitOnNonToken(w) == [w]
  {
    if w != [] {
      SplitWord(w[1..]);
      assert [w[0]] + w[1..] == w;
    }
  }

  /** A non-empty lower-case word of token characters is one token. */
  lemma JdWord(w: string)
    requires w != [] && IsTokenWord(w)
    ensures JdTokens(w) == [w]
  {
    assert Lower(w) == w by {
      assert IsLower(w);
      LowerOfLower(w);
    }
    assert SplitOnNonToken(w) == [w] by {
      SplitWord(w);
    }
    assert TrimAll([w]) == [w] by {
      NotSpace(w[0]);
      NotSpace(w[|w| - 1]);
      TrimOfTrimmed(w);
      assert TrimAll([w])[0] == Trim(w);
    }
    assert NonEmpty([w]) == [w] by {
      assert [w][1..] == [];
    }
  }

  // ---------------------------------------------------------------------------
  // Skill labels
  // ---------------------------------------------------------------------------

  datatype SkillLabel = Required | Preferred | Matched | Unmatched

  /** `jdTokens.some(token => skill.includes(token))`. */
  predicate AnyTokenIn(skill: string, tokens: seq<string>) {
    if tokens == [] then false
    else Includes(skill, tokens[0]) || AnyTokenIn(skill, tokens[1..])
  }

  lemma {:induction false} AnyTokenInExists(skill: string, tokens: seq<string>)
    ensures AnyTokenIn(skill, tokens) <==> exists t :: t in tokens && Includes(skill, t)
  {
    if tokens != [] {
      AnyTokenInExists(skill, tokens[1..]);
      assert tokens[0] in tokens;
      assert forall t :: t in tokens[1..] ==> t in tokens;
      assert forall t :: t in tokens ==> t == tokens[0] || t in tokens[1..];
    }
  }

  /** The label of one displayed skill: the first test that holds wins. */
  function LabelSkill(skill: string, required: seq<string>, preferred: seq<string>, jd: seq<string>): (r: SkillLabel)
    ensures r == Required <==> Lower(skill) in required
    ensures r == Preferred <==> Lower(skill) !in required && Lower(skill) in preferred
    ensures r == Matched <==> Lower(skill) !in required && Lower(skill) !in preferred &&
                               exists t :: t in jd && Includes(Lower(skill), t)
    ensures r == Unmatched <==> Lower(skill) !in required && Lower(skill) !in preferred &&
                                 !exists t :: t in jd && Includes(Lower(skill), t)
  {
    var low := Lower(skill);
    AnyTokenInExists(low, jd);
    if low in required then Required
    else if low in preferred then Preferred
    else if AnyTokenIn(low, jd) then Matched
    else Unmatched
  }

  /** Labels do not depend on the case of the skill as the backend wrote it. */
  lemma LabelIgnoresCase(skill: string, required: seq<string>, preferred: seq<string>, jd: seq<string>)
    ensures LabelSkill(Lower(skill), required, preferred, jd) == LabelSkill(skill, required, preferred, jd)
  {
    LowerIsLower(skill);
  }

  /** A skill typed as an item of the required field is labelled required,
      whatever the preferred field holds. */
  lemma RequiredBeatsPreferred(skill: string, before: string, after: string, prefRaw: string, jd: seq<string>)
    requires skill != "" && IsTrimmed(skill) && ',' !in skill
    ensures LabelSkill(skill, ParseSkillList(before + [','] + skill + [','] + after), ParseSkillList(prefRaw), jd) == Required
  {
    var raw := before + [','] + skill + [','] + after;
    assert skill in CommaList(raw) by {
      assert raw == before + [','] + (skill + [','] + after);
      CommaListAround(before, skill + [','] + after);
      CommaListAround(skill, after);
      CommaListOfItem(skill);
    }
    LowerAllMember(CommaList(raw), skill);
    ParsedIsLoweredCommaList(raw);
  }

  lemma LowerAllMember(xs: seq<string>, x: string)
    requires x in xs
    ensures Lower(x) in LowerAll(xs)
  {
    var k :| 0 <= k < |xs| && xs[k] == x;
    assert LowerAll(xs)[k] == Lower(x);
  }

  /** The number of skill badges a card shows. */
  const ShownSkills := 8

  /** `(c.skills || []).slice(0, 8).map(...)`: the labels of the first eight skills. */
  function CardLabels(c: Candidate, required: seq<string>, preferred: seq<string>, jd: seq<string>): (r: seq<SkillLabel>)
    ensures |r| == if |SkillsOf(c)| < ShownSkills then |SkillsOf(c)| else ShownSkills
    ensures forall i {:trigger r[i]} :: 0 <= i < |r| ==> r[i] == LabelSkill(SkillsOf(c)[i], required, preferred, jd)
  {
    var shown := if |SkillsOf(c)| < ShownSkills then SkillsOf(c) else SkillsOf(c)[..ShownSkills];
    seq(|shown|, i requires 0 <= i < |shown| => LabelSkill(shown[i], required, preferred, jd))
  }

  /** The "+N más" badge: present only when a candidate has more than eight skills. */
  function OverflowBadge(c: Candidate): (r: Option<nat>)
    ensures r.Some? <==> |SkillsOf(c)| > ShownSkills
  {
    if |SkillsOf(c)| > ShownSkills then Some(|SkillsOf(c)| - ShownSkills) else None
  }

  /** Every skill is either labelled on the card or counted by the badge, never both. */
  lemma CardAccountsForEverySkill(c: Candidate, required: seq<string>, preferred: seq<string>, jd: seq<string>)
    ensures |CardLabels(c, required, preferred, jd)| +
            (match OverflowBadge(c) case Some(n) => n case None => 0) == |SkillsOf(c)|
  {
  }

  // ---------------------------------------------------------------------------
  // Sorting
  // ---------------------------------------------------------------------------

  datatype SortBy = ByScore | ByExperience | ByName
  datatype SortDir = Asc | Desc

  /** The comparator's direction factor `dir`. */
  function DirFactor(d: SortDir): real {
    if d == Asc then 1.0 else -1.0
  }

  /** The value the comparator subtracts; for names, `localeCompare` is given by a
      collation key, which makes it a total preorder on names. */
  function SortValue(c: Candidate, field: SortBy, collate: string -> real): real {
    match field
    case ByScore => c.score
    case ByExperience => c.experienceYears
    case ByName => collate(c.fullName)
  }

  /** `compare(a, b) < 0` exactly when `SortKey(a) < SortKey(b)`. */
  function SortKey(field: SortBy, dir: SortDir, collate: string -> real): Candidate -> real {
    c => DirFactor(dir) * SortValue(c, field, collate)
  }

  /** `result?.candidates || []`. */
  function ResultCandidates(result: Option<seq<Candidate>>): seq<Candidate> {
    match result
    case Some(cs) => cs
    case None => []
  }

  /** `sortedCandidates`: a sorted copy of the result (the result itself is a
      value here and is left as it was). */
  function SortedCandidates(cs: seq<Candidate>, field: SortBy, dir: SortDir, collate: string -> real): (r: seq<Candidate>)
    ensures multiset(r) == multiset(cs) && |r| == |cs|
    ensures dir == Asc ==> forall i :: 0 <= i < |r| - 1 ==>
              SortValue(r[i], field, collate) <= SortValue(r[i + 1], field, collate)
    ensures dir == Desc ==> forall i :: 0 <= i < |r| - 1 ==>
              SortValue(r[i], field, collate) >= SortValue(r[i + 1], field, collate)
  {
    var key := SortKey(field, dir, collate);
    var r := StableSort.Sort(cs, key);
    assert forall i :: 0 <= i < |r| - 1 ==> key(r[i]) <= key(r[i + 1]);
    r
  }

  /** Candidates with equal sort values stay in the order the service sent them. */
  lemma SortedCandidatesStable(cs: seq<Candidate>, field: SortBy, dir: SortDir, collate: string -> real, k: real)
    ensures StableSort.WithKey(SortedCandidates(cs, field, dir, collate), SortKey(field, dir, collate), k) ==
            StableSort.WithKey(cs, SortKey(field, dir, collate), k)
  {
    StableSort.SortIsStable(cs, SortKey(field, dir, collate), k);
  }

  // ---------------------------------------------------------------------------
  // Pages
  // ---------------------------------------------------------------------------

  /** The page sizes the selector offers. */
  predicate IsPageSizeOption(n: int) {
    n == 5 || n == 10 || n == 20 || n == 50
  }

  /** `Math.max(1, Math.ceil(total / pageSize))`. */
  function TotalPages(total: nat, pageSize: nat): (r: nat)
    requires pageSize > 0
    ensures r >= 1
    ensures total == 0 ==> r == 1
  {
    if total == 0 then 1 else (total + pageSize - 1) / pageSize
  }

  /** The pages hold every candidate, and one page fewer would not. */
  lemma TotalPagesBounds(total: nat, pageSize: nat)
    requires pageSize > 0
    ensures total <= TotalPages(total, pageSize) * pageSize
    ensures total > 0 ==> (TotalPages(total, pageSize) - 1) * pageSize < total
  {
  }

  /** `Array.prototype.slice(start, end)`: negative positions count from the end,
      positions are clamped to the sequence, and an empty range gives `[]`. */
  function JsSlice<T>(s: seq<T>, start: int, end: int): (r: seq<T>)
    ensures 0 <= start <= end <= |s| ==> r == s[start..end]
    ensures |r| <= |s|
  {
    var from := if start < 0 then (if |s| + start < 0 then 0 else |s| + start)
                else (if start > |s| then |s| else start);
    var to := if end < 0 then (if |s| + end < 0 then 0 else |s| + end)
              else (if end > |s| then |s| else end);
    if from < to then s[from..to] else []
  }

  /** `currentPage`. */
  function CurrentPage(page: int, totalPages: nat): int {
    if page < totalPages then page else totalPages
  }

  /** `pageItems`: the slice of the sorted list the current page shows. */
  function PageItems<T>(sorted: seq<T>, page: int, pageSize: nat): (r: seq<T>)
    requires pageSize > 0
    ensures |r| <= pageSize
  {
    var current := CurrentPage(page, TotalPages(|sorted|, pageSize));
    var start := (current - 1) * pageSize;
    JsSlice(sorted, start, start + pageSize)
  }

  /** A page number within range shows positions `(page-1)*size` up to `page*size`. */
  lemma PageItemsInRange<T>(sorted: seq<T>, page: int, pageSize: nat)
    requires pageSize > 0 && 1 <= page <= TotalPages(|sorted|, pageSize)
    ensures (page - 1) * pageSize <= |sorted|
    ensures PageItems(sorted, page, pageSize) ==
            sorted[(page - 1) * pageSize..if page * pageSize < |sorted| then page * pageSize else |sorted|]
  {
    var n := TotalPages(|sorted|, pageSize);
    var start := (page - 1) * pageSize;
    TotalPagesBounds(|sorted|, pageSize);
    MulMonotone(page - 1, n - 1, pageSize);
    assert start + pageSize == page * pageSize;
    assert CurrentPage(page, n) == page;
  }

  lemma MulMonotone(a: int, b: int, m: nat)
    requires 0 <= a <= b
    ensures 0 <= a * m <= b * m
  {
  }

  /** A page number past the end shows the last page. */
  lemma PageItemsClampHigh<T>(sorted: seq<T>, page: int, pageSize: nat)
    requires pageSize > 0 && page > TotalPages(|sorted|, pageSize)
    ensures PageItems(sorted, page, pageSize) == PageItems(sorted, TotalPages(|sorted|, pageSize), pageSize)
  {
  }

  /** Page 0 is never clamped up: it slices from `-pageSize` to `0`, which is empty. */
  lemma PageZeroIsEmpty<T>(sorted: seq<T>, pageSize: nat)
    requires pageSize > 0
    ensures PageItems(sorted, 0, pageSize) == []
  {
  }

  /** The pages 1..p laid end to end. */
  function PagesUpTo<T>(sorted: seq<T>, pageSize: nat, p: nat): seq<T>
    requires pageSize > 0
  {
    if p == 0 then [] else PagesUpTo(sorted, pageSize, p - 1) + PageItems(sorted, p, pageSize)
  }

  lemma {:induction false} PagesUpToPrefix<T>(sorted: seq<T>, pageSize: nat, p: nat)
    requires pageSize > 0 && p <= TotalPages(|sorted|, pageSize)
    ensures PagesUpTo(sorted, pageSize, p) == sorted[..if p * pageSize < |sorted| then p * pageSize else |sorted|]
  {
    if p > 0 {
      var prev := PagesUpTo(sorted, pageSize, p - 1);
      var page := PageItems(sorted, p, pageSize);
      var a, b := (p - 1) * pageSize, p * pageSize;
      MulMonotone(p - 1, p, pageSize);
      assert prev == sorted[..if a < |sorted| then a else |sorted|] by {
        PagesUpToPrefix(sorted, pageSize, p - 1);
      }
      assert 0 <= a <= |sorted| && page == sorted[a..if b < |sorted| then b else |sorted|] by {
        PageItemsInRange(sorted, p, pageSize);
      }
      PagesStep(sorted, prev, page, a, b);
    }
  }

  /** The prefix up to `a` followed by the slice from `a` to `b` (both clamped
      to the list) is the prefix up to `b`. */
  lemma PagesStep<T>(s: seq<T>, prev: seq<T>, page: seq<T>, a: int, b: int)
    requires 0 <= a <= |s| && a <= b
    requires prev == s[..if a < |s| then a else |s|]
    requires page == s[a..if b < |s| then b else |s|]
    ensures prev + page == s[..if b < |s| then b else |s|]
  {
    PrefixStep(s, a, if b < |s| then b else |s|);
  }

  lemma PrefixStep<T>(s: seq<T>, a: int, b: int)
    requires 0 <= a <= b <= |s|
    ensures s[..a] + s[a..b] == s[..b]
  {
  }

  /** Walking through every page shows each candidate exactly once, in order. */
  lemma PagesCoverSorted<T>(sorted: seq<T>, pageSize: nat)
    requires pageSize > 0
    ensures PagesUpTo(sorted, pageSize, TotalPages(|sorted|, pageSize)) == sorted
  {
    TotalPagesBounds(|sorted|, pageSize);
    PagesUpToPrefix(sorted, pageSize, TotalPages(|sorted|, pageSize));
  }

  // ---------------------------------------------------------------------------
  // Request payload
  // ---------------------------------------------------------------------------

  datatype RankingPayload = RankingPayload(
    jobDescription: string,
    requiredSkills: seq<string>,
    preferredSkills: seq<string>,
    minExperience: real,
    gender: Option<string>,
    cities: seq<string>,
    maxDistanceKm: Option<real>)

  /** The body `handleRank` posts, built from the form fields. `number` is
      JavaScript's `Number` on the distance field's text. The skill and city
      lists are the comma lists of their fields, case kept; lower-cased, the
      skill lists are the highlighting filters. Gender and distance are sent
      only when their fields are non-empty, so a distance of "0" is sent. */
  function Payload(jobDescription: string, requiredSkills: string, preferredSkills: string,
                   minExperience: real, gender: string, cities: string,
                   maxDistanceKm: string, number: string -> real): (r: RankingPayload)
    ensures r.jobDescription == jobDescription && r.minExperience == minExperience
    ensures r.requiredSkills == CommaList(requiredSkills)
    ensures r.preferredSkills == CommaList(preferredSkills)
    ensures r.cities == CommaList(cities)
    ensures LowerAll(r.requiredSkills) == ParseSkillList(requiredSkills)
    ensures LowerAll(r.preferredSkills) == ParseSkillList(preferredSkills)
    ensures r.gender.Some? <==> gender != ""
    ensures r.gender.Some? ==> r.gender.value == gender
    ensures r.maxDistanceKm.Some? <==> maxDistanceKm != ""
    ensures r.maxDistanceKm.Some? ==> r.maxDistanceKm.value == number(maxDistanceKm)
  {
    ParsedIsLoweredCommaList(requiredSkills);
    ParsedIsLoweredCommaList(preferredSkills);
    RankingPayload(jobDescription, CommaList(requiredSkills), CommaList(preferredSkills),
                   minExperience, if gender == "" then None else Some(gender), CommaList(cities),
                   if maxDistanceKm == "" then None else Some(number(maxDistanceKm)))
  }

  /** Every list the request sends holds only non-empty, trimmed, comma-free
      items. */
  lemma PayloadListsClean(jobDescription: string, requiredSkills: string, preferredSkills: string,
                          minExperience: real, gender: string, cities: string,
                          maxDistanceKm: string, number: string -> real)
    ensures var r := Payload(jobDescription, requiredSkills, preferredSkills, minExperience,
                             gender, cities, maxDistanceKm, number);
      forall t :: t in r.requiredSkills + r.preferredSkills + r.cities ==>
        t != "" && IsTrimmed(t) && ',' !in t
  {
    var r := Payload(jobDescription, requiredSkills, preferredSkills, minExperience,
                     gender, cities, maxDistanceKm, number);
    forall t | t in r.requiredSkills + r.preferredSkills + r.cities
      ensures t != "" && IsTrimmed(t) && ',' !in t
    {
      assert t in r.requiredSkills || t in r.preferredSkills || t in r.cities;
    }
  }

  // ---------------------------------------------------------------------------
  // Panel state
  // ---------------------------------------------------------------------------

  /** The panel's result, sort and pagination state, updated by its handlers. */
  class ResultView {
    var result: Option<seq<Candidate>>
    var sortBy: SortBy
    var sortDir: SortDir
    var page: int
    var pageSize: nat
    const collate: string -> real

    /** The page number always names an existing page. */
    ghost predicate Valid()
      reads this
    {
      pageSize > 0 && 1 <= page <= TotalPages(|ResultCandidates(result)|, pageSize)
    }

    function Sorted(): seq<Candidate>
      reads this
    {
      SortedCandidates(ResultCandidates(result), sortBy, sortDir, collate)
    }

    function TotalPageCount(): (r: nat)
      reads this
      requires pageSize > 0
      ensures r >= 1
    {
      TotalPages(|ResultCandidates(result)|, pageSize)
    }

    /** The candidates on screen. */
    function Visible(): (r: seq<Candidate>)
      reads this
      requires Valid()
      ensures |r| <= pageSize
      ensures CurrentPage(page, TotalPageCount()) == page
    {
      PageItems(Sorted(), page, pageSize)
    }

    constructor (collate: string -> real)
      ensures Valid()
      ensures result == None && sortBy == ByScore && sortDir == Desc
      ensures page == 1 && pageSize == 10 && this.collate == collate
    {
      result := None;
      sortBy := ByScore;
      sortDir := Desc;
      page := 1;
      pageSize := 10;
      this.collate := collate;
    }

    /** A new ranking response replaces the result and goes back to page 1. */
    method ShowResult(cs: seq<Candidate>)
      requires Valid()
      modifies this
      ensures Valid()
      ensures result == Some(cs) && page == 1
      ensures sortBy == old(sortBy) && sortDir == old(sortDir) && pageSize == old(pageSize)
    {
      result := Some(cs);
      page := 1;
    }

    /** The "←" button. */
    method PrevPage()
      requires Valid()
      modifies this
      ensures Valid()
      ensures page == if old(page) - 1 > 1 then old(page) - 1 else 1
      ensures result == old(result) && pageSize == old(pageSize)
      ensures sortBy == old(sortBy) && sortDir == old(sortDir)
    {
      page := if page - 1 > 1 then page - 1 else 1;
    }

    /** The "→" button. */
    method NextPage()
      requires Valid()
      modifies this
      ensures Valid()
      ensures page == if old(page) + 1 < TotalPageCount() then old(page) + 1 else TotalPageCount()
      ensures result == old(result) && pageSize == old(pageSize)
      ensures sortBy == old(sortBy) && sortDir == old(sortDir)
    {
      var total := TotalPageCount();
      page := if page + 1 < total then page + 1 else total;
    }

    /** The "Por pág" selector: a new size and back to page 1. */
    method ChangePageSize(n: nat)
      requires Valid() && IsPageSizeOption(n)
      modifies this
      ensures Valid()
      ensures pageSize == n && page == 1
      ensures result == old(result) && sortBy == old(sortBy) && sortDir == old(sortDir)
    {
      pageSize := n;
      page := 1;
    }

    /** The "Ordenar" selectors: the order changes, the page number does not. */
    method ChangeSort(field: SortBy, dir: SortDir)
      requires Valid()
      modifies this
      ensures Valid()
      ensures sortBy == field && sortDir == dir
      ensures result == old(result) && page == old(page) && pageSize == old(pageSize)
    {
      sortBy := field;
      sortDir := dir;
    }
  }
}
