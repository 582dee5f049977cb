/** The second report builder (`exportEnhancedCSV` in src/utils/exportUtils.ts).
    It differs from the one in src/components/ExportOptions.tsx in the Score
    cell, in the metadata defaults, and in turning a bare column name into a
    line of its own instead of failing: as written, each of the sixteen
    names gets its own line. `Lines` is the report with one header row. */
module ExportUtils {
  import opened Text
  import opened Candidates
  import opened Csv
  import ExportOptions

  /** The data row: the Score cell is `String(score || 0)`, not two decimals. */
  function Row(c: Candidate, index: nat, num: real -> string): (r: seq<string>)
    ensures |r| == |Headers| && r[0] == NatText(index + 1)
    ensures r[3] == OrZero(c.score, num)
  {
    RowWithScore(c, index, OrZero(c.score, num), num)
  }

  /** The two builders' rows differ in the Score cell only. */
  lemma RowsDifferOnlyInScore(c: Candidate, index: nat, fixed2: real -> string, num: real -> string)
    ensures forall k :: 0 <= k < |Headers| && k != 3 ==>
              Row(c, index, num)[k] == ExportOptions.Row(c, index, fixed2, num)[k]
    ensures Row(c, index, num)[3] == OrZero(c.score, num)
    ensures ExportOptions.Row(c, index, fixed2, num)[3] == ExportOptions.ScoreCell(c.score, fixed2)
  {
  }

  /** The metadata block, ten name/value pairs and a blank pair, with this
      builder's defaults. */
  function Metadata(p: SearchParams, exportedAt: string, n: nat, num: real -> string): (r: seq<seq<string>>)
    ensures |r| == 11 && forall i :: 0 <= i < 11 ==> |r[i]| == 2
    ensures r[3][1] == OrZero(p.minExperience, num) + " a\U{F1}os"
    ensures p.gender == "" ==> r[4][1] == "Todos"
    ensures p.cities == "" ==> r[5][1] == "Todas"
    ensures p.maxDistanceKm == "" ==> r[6][1] == "N/A km"
    ensures r[7] == ["Descripci\U{F3}n del Puesto", p.jobDescription]
    ensures r[8][1] == exportedAt
    ensures r[9] == ["Total Candidatos", NatText(n)]
    ensures r[10] == ["", ""]
  {
    [["B\U{FA}squeda HR Selector", ""],
     ["Skills Requeridas", p.requiredSkills],
     ["Skills Preferidas", p.preferredSkills],
     ["Experiencia M\U{ED}nima", OrZero(p.minExperience, num) + " a\U{F1}os"],
     ["G\U{E9}nero", if p.gender == "" then "Todos" else p.gender],
     ["Ciudades", if p.cities == "" then "Todas" else p.cities],
     ["Distancia M\U{E1}xima", (if p.maxDistanceKm == "" then "N/A" else p.maxDistanceKm) + " km"],
     ["Descripci\U{F3}n del Puesto", p.jobDescription],
     ["Fecha de Exportaci\U{F3}n", exportedAt],
     ["Total Candidatos", NatText(n)],
     ["", ""]]
  }

  /** Metadata cells are not quoted: a comma in the job description gives its
      line more than two columns. */
  lemma JobDescriptionCommaAddsColumn(p: SearchParams, exportedAt: string, n: nat, num: real -> string)
    requires ',' in p.jobDescription
    ensures |Split(Join(Metadata(p, exportedAt, n, num)[7], ","), ',')| > 2
  {
    var name := "Descripci\U{F3}n del Puesto";
    var line := Join(Metadata(p, exportedAt, n, num)[7], ",");
    var pair := [name, p.jobDescription];
    assert Metadata(p, exportedAt, n, num)[7] == pair;
    assert pair[1..] == [p.jobDescription];
    assert Join(pair, ",") == name + "," + Join(pair[1..], ",");
    assert Join([p.jobDescription], ",") == p.jobDescription;
    assert line == name + "," + p.jobDescription;
    assert multiset(line) == multiset(name) + multiset(",") + multiset(p.jobDescription);
    SplitCount(line, ',');
  }

  /** `[...metadata, ...rows]`: metadata pairs, the column names as bare
      strings, then the quoted rows. */
  function Items(cs: seq<Candidate>, p: SearchParams, exportedAt: string, num: real -> string): (r: seq<Line>)
    ensures |r| == 11 + |Headers| + |cs|
  {
    var m := Metadata(p, exportedAt, |cs|, num);
    seq(11, i requires 0 <= i < 11 => Cells(m[i])) +
    seq(|Headers|, i requires 0 <= i < |Headers| => Bare(Headers[i])) +
    seq(|cs|, i requires 0 <= i < |cs| => Cells(QuoteAll(Row(cs[i], i, num))))
  }

  /** The report lines as written: `Array.isArray(row) ? row.join(',') : String(row)`. */
  function LinesAsWritten(cs: seq<Candidate>, p: SearchParams, exportedAt: string, num: real -> string): (r: seq<string>)
    ensures |r| == 27 + |cs|
  {
    LenientLines(Items(cs, p, exportedAt, num))
  }

  /** As written, the column names take sixteen lines of one column each,
      and the data lines follow them. */
  lemma HeadersOnSeparateLines(cs: seq<Candidate>, p: SearchParams, exportedAt: string, num: real -> string)
    ensures forall k :: 0 <= k < |Headers| ==> LinesAsWritten(cs, p, exportedAt, num)[11 + k] == Headers[k]
    ensures Split(LinesAsWritten(cs, p, exportedAt, num)[11], ',') == ["Ranking"]
    ensures forall i :: 0 <= i < |cs| ==>
              LinesAsWritten(cs, p, exportedAt, num)[27 + i] == QuotedRow(Row(cs[i], i, num))
  {
    var items := Items(cs, p, exportedAt, num);
    assert forall k :: 0 <= k < |Headers| ==> items[11 + k] == Bare(Headers[k]);
    assert forall i :: 0 <= i < |cs| ==> items[27 + i] == Cells(QuoteAll(Row(cs[i], i, num)));
    HeadersHaveNoComma();
    assert Split("Ranking", ',') == ["Ranking"] by {
      NoSeparatorOnePiece("Ranking", ',');
    }
  }

  lemma {:induction false} NoSeparatorOnePiece(s: string, c: char)
    requires c !in s
    ensures Split(s, c) == [s]
  {
    SplitJoin([s], c);
  }

  function QuotedRows(cs: seq<Candidate>, num: real -> string): (r: seq<string>)
    ensures |r| == |cs|
    ensures forall i {:trigger r[i]} :: 0 <= i < |cs| ==> r[i] == QuotedRow(Row(cs[i], i, num))
  {
    seq(|cs|, i requires 0 <= i < |cs| => QuotedRow(Row(cs[i], i, num)))
  }

  /** The report lines with the column names written as one header row. */
  function Lines(cs: seq<Candidate>, p: SearchParams, exportedAt: string, num: real -> string): (r: seq<string>)
    ensures |r| == 12 + |cs|
    ensures r[11] == HeaderRow()
    ensures forall i :: 0 <= i < |cs| ==> r[12 + i] == QuotedRow(Row(cs[i], i, num))
  {
    var m := Metadata(p, exportedAt, |cs|, num);
    seq(11, i requires 0 <= i < 11 => Join(m[i], ",")) + [HeaderRow()] + QuotedRows(cs, num)
  }

  /** `csvContent` with the header row. */
  function Report(cs: seq<Candidate>, p: SearchParams, exportedAt: string, num: real -> string): string {
    Join(Lines(cs, p, exportedAt, num), "\n")
  }

  /** In the corrected report the header row has the sixteen column names and
      every candidate's line reads back as its sixteen cells. */
  lemma ReportColumns(cs: seq<Candidate>, p: SearchParams, exportedAt: string, num: real -> string, i: nat)
    requires i < |cs|
    ensures Split(Lines(cs, p, exportedAt, num)[11], ',') == Headers
    ensures ParseRow(Lines(cs, p, exportedAt, num)[12 + i]) == Some(Row(cs[i], i, num))
    ensures |Row(cs[i], i, num)| == |Headers| && Row(cs[i], i, num)[0] == NatText(i + 1)
  {
    HeaderRowColumns();
    ParseQuotedRow(Row(cs[i], i, num));
  }
}
