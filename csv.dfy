/** What the two report builders (src/components/ExportOptions.tsx and
    src/utils/exportUtils.ts) share: the sixteen column names, the quoting of
    data cells, the two ways the lines of the report are turned into text,
    and the name of the downloaded file. */
module Csv {
  import opened Text
  import opened Candidates

  /** The column names, in the order of the cells of a data row. */
  const Headers: seq<string> := [
    "Ranking", "Nombre Completo", "Email", "Score", "Experiencia (a\U{F1}os)", "Skills",
    "Required Matches", "Preferred Matches", "Job Description Matches", "Experiencia OK",
    "Ciudad", "G\U{E9}nero", "Educaci\U{F3}n", "Distancia (km)", "CV ID", "User ID"]

  lemma HeadersHaveNoComma()
    ensures |Headers| == 16
    ensures forall h :: h in Headers ==> h != "" && ',' !in h
  {
    forall i | 0 <= i < |Headers| ensures Headers[i] != "" && ',' !in Headers[i] {
      NoCommaAt(i);
    }
  }

  lemma NoCommaAt(i: int)
    requires 0 <= i < |Headers|
    ensures Headers[i] != "" && ',' !in Headers[i]
  {
    if i == 0 { assert Headers[0] == "Ranking"; }
    else if i == 1 { assert Headers[1] == "Nombre Completo"; }
    else if i == 2 { assert Headers[2] == "Email"; }
    else if i == 3 { assert Headers[3] == "Score"; }
    else if i == 4 { assert Headers[4] == "Experiencia (a\U{F1}os)"; }
    else if i == 5 { assert Headers[5] == "Skills"; }
    else if i == 6 { assert Headers[6] == "Required Matches"; }
    else if i == 7 { assert Headers[7] == "Preferred Matches"; }
    else if i == 8 { assert Headers[8] == "Job Description Matches"; }
    else if i == 9 { assert Headers[9] == "Experiencia OK"; }
    else if i == 10 { assert Headers[10] == "Ciudad"; }
    else if i == 11 { assert Headers[11] == "G\U{E9}nero"; }
    else if i == 12 { assert Headers[12] == "Educaci\U{F3}n"; }
    else if i == 13 { assert Headers[13] == "Distancia (km)"; }
    else if i == 14 { assert Headers[14] == "CV ID"; }
    else { assert Headers[15] == "User ID"; }
  }

  // ---------------------------------------------------------------------------
  // Quoting (RFC 4180, section 2, rule 7)
  // ---------------------------------------------------------------------------

  /** `.replace(/"/g, '""')`: every double quote doubled. */
  function Escape(s: string): (r: string)
    ensures '"' !in s ==> r == s
  {
    if s == [] then []
    else (if s[0] == '"' then "\"\"" else [s[0]]) + Escape(s[1..])
  }

  /** `` `"${String(cell).replace(/"/g, '""')}"` ``. */
  function Quote(s: string): (r: string)
    ensures |r| >= 2 && r[0] == '"' && r[|r| - 1] == '"'
  {
    "\"" + Escape(s) + "\""
  }

  /** Reads a quoted field's body up to its closing quote, a doubled quote
      standing for one quote; gives the body and the text after the quote. */
  function Body(s: string): (r: Option<(string, string)>)
    ensures r.Some? ==> |r.value.1| < |s|
    decreases |s|
  {
    if s == [] then None
    else if s[0] == '"' then
      if |s| >= 2 && s[1] == '"' then
        match Body(s[2..])
        case None => None
        case Some(p) => Some(("\"" + p.0, p.1))
      else Some(("", s[1..]))
    else
      match Body(s[1..])
      case None => None
      case Some(p) => Some(([s[0]] + p.0, p.1))
  }

  /** One quoted field standing alone. */
  function Unquote(s: string): Option<string> {
    if s == [] || s[0] != '"' then None
    else match Body(s[1..])
      case Some(p) => if p.1 == [] then Some(p.0) else None
      case None => None
  }

  /** A line of quoted fields separated by commas. */
  function ParseRow(s: string): Option<seq<string>>
    decreases |s|
  {
    if s == [] || s[0] != '"' then None
    else match Body(s[1..])
      case None => None
      case Some(p) =>
        if p.1 == [] then Some([p.0])
        else if p.1[0] == ',' then
          match ParseRow(p.1[1..])
          case None => None
          case Some(rest) => Some([p.0] + rest)
        else None
  }

  lemma {:induction false} BodyOfEscaped(x: string, rest: string)
    requires rest == [] || rest[0] != '"'
    ensures Body(Escape(x) + "\"" + rest) == Some((x, rest))
    decreases |x|
  {
    if x == [] {
      var s := Escape(x) + "\"" + rest;
      assert s == "\"" + rest && s[1..] == rest;
    } else {
      BodyOfEscaped(x[1..], rest);
      if x[0] == '"' {
        EscapedQuoteStep(x, rest);
      } else {
        EscapedCharStep(x, rest);
      }
    }
  }

  /** One step of BodyOfEscaped for a leading quote, which was doubled. */
  lemma EscapedQuoteStep(x: string, rest: string)
    requires x != [] && x[0] == '"'
    requires Body(Escape(x[1..]) + "\"" + rest) == Some((x[1..], rest))
    ensures Body(Escape(x) + "\"" + rest) == Some((x, rest))
  {
    var t := Escape(x[1..]) + "\"" + rest;
    assert Escape(x) + "\"" + rest == "\"\"" + t;
    BodyDoubledQuote(t);
    assert "\"" + x[1..] == x;
  }

  /** One step of BodyOfEscaped for any other leading character. */
  lemma EscapedCharStep(x: string, rest: string)
    requires x != [] && x[0] != '"'
    requires Body(Escape(x[1..]) + "\"" + rest) == Some((x[1..], rest))
    ensures Body(Escape(x) + "\"" + rest) == Some((x, rest))
  {
    var t := Escape(x[1..]) + "\"" + rest;
    assert Escape(x) + "\"" + rest == [x[0]] + t;
    BodyPlainChar(x[0], t);
    assert [x[0]] + x[1..] == x;
  }

  /** A doubled quote in a body reads as one quote. */
  lemma BodyDoubledQuote(t: string)
    requires Body(t).Some?
    ensures Body("\"\"" + t) == Some(("\"" + Body(t).value.0, Body(t).value.1))
  {
    assert ("\"\"" + t)[2..] == t;
  }

  /** Any other character is copied into the body. */
  lemma BodyPlainChar(c: char, t: string)
    requires c != '"' && Body(t).Some?
    ensures Body([c] + t) == Some(([c] + Body(t).value.0, Body(t).value.1))
  {
    assert ([c] + t)[1..] == t;
  }

  /** Unquoting a quoted cell gives the cell back. */
  lemma UnquoteQuote(x: string)
    ensures Unquote(Quote(x)) == Some(x)
  {
    BodyOfEscaped(x, "");
    assert Quote(x)[1..] == Escape(x) + "\"" + "";
  }

  function QuoteAll(cells: seq<string>): (r: seq<string>)
    ensures |r| == |cells| && forall i {:trigger r[i]} :: 0 <= i < |cells| ==> r[i] == Quote(cells[i])
  {
    seq(|cells|, i requires 0 <= i < |cells| => Quote(cells[i]))
  }

  /** `row.map(quote).join(',')`. */
  function QuotedRow(cells: seq<string>): string {
    Join(QuoteAll(cells), ",")
  }

  /** A line of quoted cells reads back as exactly those cells, whatever
      commas, quotes or line breaks they contain. */
  lemma {:induction false} ParseQuotedRow(cells: seq<string>)
    requires |cells| >= 1
    ensures ParseRow(QuotedRow(cells)) == Some(cells)
    decreases |cells|
  {
    if |cells| == 1 {
      assert QuotedRow(cells) == Quote(cells[0]);
      ParseOneQuoted(cells[0]);
      assert [cells[0]] == cells;
    } else {
      QuotedRowCons(cells);
      ParseQuotedRow(cells[1..]);
      ParseQuotedStep(cells[0], QuotedRow(cells[1..]), cells[1..]);
      assert [cells[0]] + cells[1..] == cells;
    }
  }

  /** A single quoted cell is a row of one cell. */
  lemma ParseOneQuoted(x: string)
    ensures ParseRow(Quote(x)) == Some([x])
  {
    BodyOfEscaped(x, "");
    assert Quote(x)[1..] == Escape(x) + "\"" + "";
  }

  /** A quoted cell and a comma in front of a row add that cell in front. */
  lemma ParseQuotedStep(x: string, tail: string, rest: seq<string>)
    requires ParseRow(tail) == Some(rest)
    ensures ParseRow(Quote(x) + "," + tail) == Some([x] + rest)
  {
    var s := Quote(x) + "," + tail;
    assert s[1..] == Escape(x) + "\"" + ("," + tail);
    BodyOfEscaped(x, "," + tail);
    assert ("," + tail)[1..] == tail;
  }

  lemma QuotedRowCons(cells: seq<string>)
    requires |cells| >= 2
    ensures QuotedRow(cells) == Quote(cells[0]) + "," + QuotedRow(cells[1..])
  {
    assert QuoteAll(cells)[1..] == QuoteAll(cells[1..]);
  }

  /** The header row, when written as one line. */
  function HeaderRow(): string {
    Join(Headers, ",")
  }

  /** The header row splits back into the sixteen names. */
  lemma HeaderRowColumns()
    ensures Split(HeaderRow(), ',') == Headers
  {
    HeadersHaveNoComma();
    SplitJoin(Headers, ',');
  }

  // ---------------------------------------------------------------------------
  // Cells both builders fill the same way
  // ---------------------------------------------------------------------------

  /** `String(x || 0)` for a number, `num` standing for `String`. */
  function OrZero(x: real, num: real -> string): (r: string)
    ensures x == 0.0 ==> r == "0"
    ensures x != 0.0 ==> r == num(x)
  {
    if x == 0.0 then "0" else num(x)
  }

  /** `String(candidate.reasons?.<count> || 0)`. */
  function MatchCell(reasons: Option<Reasons>, count: Reasons -> nat): (r: string)
    ensures reasons.None? ==> r == "0"
    ensures reasons.Some? ==> r == NatText(count(reasons.value))
  {
    match reasons
    case None => "0"
    case Some(rs) => NatText(count(rs))
  }

  /** `candidate.reasons?.experienceOK ? 'Sí' : 'No'`. */
  function ExperienceOkCell(reasons: Option<Reasons>): (r: string)
    ensures r == "S\U{ED}" <==> reasons.Some? && reasons.value.experienceOK
    ensures r == "No" <==> !(reasons.Some? && reasons.value.experienceOK)
  {
    if reasons.Some? && reasons.value.experienceOK then "S\U{ED}" else "No"
  }

  /** `String(candidate.reasons?.distanceKm || '')`: empty when there is no
      report, no distance, or a distance of 0. */
  function DistanceCell(reasons: Option<Reasons>, num: real -> string): (r: string)
    ensures (reasons.None? || reasons.value.distanceKm.None? || reasons.value.distanceKm == Some(0.0)) ==> r == ""
    ensures reasons.Some? && reasons.value.distanceKm.Some? && reasons.value.distanceKm.value != 0.0 ==>
              r == num(reasons.value.distanceKm.value)
  {
    match reasons
    case None => ""
    case Some(rs) =>
      match rs.distanceKm
      case None => ""
      case Some(d) => if d == 0.0 then "" else num(d)
  }

  /** A list joined with `"; "`, or `''` when it is absent. */
  function ListCell(xs: Option<seq<string>>): (r: string)
    ensures xs.None? ==> r == ""
    ensures xs.Some? ==> r == Join(xs.value, "; ")
  {
    match xs
    case None => ""
    case Some(s) => Join(s, "; ")
  }

  function RequiredOf(rs: Reasons): nat { rs.requiredMatches }
  function PreferredOf(rs: Reasons): nat { rs.preferredMatches }
  function JobDescriptionOf(rs: Reasons): nat { rs.jobDescriptionMatches }

  /** A data row whose Score cell is `score`; every other cell is filled the
      same way by both builders. */
  function RowWithScore(c: Candidate, index: nat, score: string, num: real -> string): (r: seq<string>)
    ensures |r| == |Headers|
    ensures r[0] == NatText(index + 1) && r[3] == score
    ensures c.reasons.None? ==> r[6] == "0" && r[7] == "0" && r[8] == "0" && r[9] == "No"
    ensures r[9] == "S\U{ED}" <==> c.reasons.Some? && c.reasons.value.experienceOK
    ensures c.skills.None? ==> r[5] == ""
    ensures c.education.None? ==> r[12] == ""
    ensures c.reasons.None? || c.reasons.value.distanceKm.None? || c.reasons.value.distanceKm == Some(0.0) ==> r[13] == ""
  {
    [NatText(index + 1), c.fullName, c.email, score, OrZero(c.experienceYears, num),
     ListCell(c.skills),
     MatchCell(c.reasons, RequiredOf), MatchCell(c.reasons, PreferredOf),
     MatchCell(c.reasons, JobDescriptionOf), ExperienceOkCell(c.reasons),
     c.city, c.gender, ListCell(c.education), DistanceCell(c.reasons, num), c.cvId, c.userId]
  }

  // ---------------------------------------------------------------------------
  // Lines of the report
  // ---------------------------------------------------------------------------

  /** An element of the list the builders join into lines: an array of cells,
      or a bare string spread into the list by `...headers`. */
  datatype Line = Cells(cells: seq<string>) | Bare(text: string)

  /** `row.join(',')`, which only arrays have: on a bare string it is a
      `TypeError`. */
  function JoinStrict(l: Line): Option<string> {
    match l
    case Cells(cells) => Some(Join(cells, ","))
    case Bare(_) => None
  }

  /** `Array.isArray(row) ? row.join(',') : String(row)`. */
  function JoinLenient(l: Line): string {
    match l
    case Cells(cells) => Join(cells, ",")
    case Bare(text) => text
  }

  datatype Outcome = Csv(text: string) | TypeError(line: nat)

  /** `lines.map(row => row.join(',')).join('\n')`: the map stops at the first
      bare string. */
  function AssembleStrict(lines: seq<Line>): (r: Outcome)
    ensures r.TypeError? <==> exists i :: 0 <= i < |lines| && lines[i].Bare?
    ensures r.TypeError? ==> r.line < |lines| && lines[r.line].Bare? &&
                             forall i :: 0 <= i < r.line ==> lines[i].Cells?
  {
    if forall i :: 0 <= i < |lines| ==> lines[i].Cells? then
      Csv(Join(seq(|lines|, i requires 0 <= i < |lines| => JoinLenient(lines[i])), "\n"))
    else
      TypeError(FirstBare(lines))
  }

  function FirstBare(lines: seq<Line>): (r: nat)
    requires exists i :: 0 <= i < |lines| && lines[i].Bare?
    ensures r < |lines| && lines[r].Bare? && forall i :: 0 <= i < r ==> lines[i].Cells?
  {
    if lines[0].Bare? then 0
    else
      assert exists i :: 0 <= i < |lines[1..]| && lines[1..][i].Bare? by {
        var i :| 0 <= i < |lines| && lines[i].Bare?;
        assert lines[1..][i - 1] == lines[i];
      }
      1 + FirstBare(lines[1..])
  }

  /** The text lines `.map(row => Array.isArray(row) ? ... : String(row))`
      produces; the report is `Join(lines, "\n")`. */
  function LenientLines(lines: seq<Line>): (r: seq<string>)
    ensures |r| == |lines| && forall i {:trigger r[i]} :: 0 <= i < |lines| ==> r[i] == JoinLenient(lines[i])
  {
    seq(|lines|, i requires 0 <= i < |lines| => JoinLenient(lines[i]))
  }

  // ---------------------------------------------------------------------------
  // File name
  // ---------------------------------------------------------------------------

  /** `` `hr-ranking-${iso.split('T')[0]}.csv` `` for the ISO timestamp `iso`. */
  function DownloadName(iso: string): (r: string)
    ensures exists d :: r == "hr-ranking-" + d + ".csv" && 'T' !in d && d <= iso
  {
    var d := Split(iso, 'T')[0];
    SplitFirstPiece(iso, 'T');
    "hr-ranking-" + d + ".csv"
  }

  /** The first piece of a split is the text before the first separator. */
  lemma {:induction false} SplitFirstPiece(s: string, c: char)
    ensures c !in Split(s, c)[0] && Split(s, c)[0] <= s
    decreases |s|
  {
    if s != [] && s[0] != c {
      SplitFirstPiece(s[1..], c);
      assert s == [s[0]] + s[1..];
    }
  }

  /** For a timestamp `date + "T" + time`, the name carries the date part. */
  lemma DownloadNameOfTimestamp(date: string, time: string)
    requires 'T' !in date
    ensures DownloadName(date + "T" + time) == "hr-ranking-" + date + ".csv"
  {
    SplitAtFirst(date, time, 'T');
  }

  lemma {:induction false} SplitAtFirst(a: string, b: string, c: char)
    requires c !in a
    ensures Split(a + [c] + b, c)[0] == a
    decreases |a|
  {
    var s := a + [c] + b;
    if a == [] {
      assert s[0] == c;
    } else {
      assert s[0] == a[0] && s[1..] == a[1..] + [c] + b;
      SplitAtFirst(a[1..], b, c);
      assert [a[0]] + a[1..] == a;
    }
  }
}
