/** The report builder the recruiter panel calls
    (`exportEnhancedCSV` in src/components/ExportOptions.tsx). As written,
    the sixteen column names are spread into the list of lines as bare
    strings, and `row.join(',')` fails on the first of them, so no report is
    ever produced; `Lines` is the report with the names as one header row. */
module ExportOptions {
  import opened Text
  import opened Candidates
  import opened Csv

  /** `candidate.score?.toFixed(2) || '0'`, with `fixed2` standing for `toFixed(2)`. */
  function ScoreCell(score: real, fixed2: real -> string): (r: string)
    ensures r != ""
    ensures fixed2(score) != "" ==> r == fixed2(score)
  {
    if fixed2(score) == "" then "0" else fixed2(score)
  }

  /** The data row of the candidate at position `index`. */
  function Row(c: Candidate, index: nat, fixed2: real -> string, num: real -> string): (r: seq<string>)
    ensures |r| == |Headers| && r[0] == NatText(index + 1)
    ensures r[3] == ScoreCell(c.score, fixed2)
  {
    RowWithScore(c, index, ScoreCell(c.score, fixed2), num)
  }

  /** The search parameters block: ten label/value pairs and a blank pair. */
  function Metadata(p: SearchParams, exportedAt: string, n: nat, num: real -> string): (r: seq<seq<string>>)
    ensures |r| == 11 && forall i :: 0 <= i < 11 ==> |r[i]| == 2
    ensures p.minExperience == 0.0 ==> r[3][1] == ""
    ensures p.gender == "" ==> r[4][1] == "Cualquiera"
    ensures p.gender != "" ==> r[4][1] == p.gender
    ensures r[8][1] == exportedAt
    ensures r[9] == ["Total Candidatos", NatText(n)]
    ensures r[10] == ["", ""]
  {
    [["Par\U{E1}metros de B\U{FA}squeda", ""],
     ["Required Skills", p.requiredSkills],
     ["Preferred Skills", p.preferredSkills],
     ["Experiencia M\U{ED}nima", if p.minExperience == 0.0 then "" else num(p.minExperience)],
     ["G\U{E9}nero", if p.gender == "" then "Cualquiera" else p.gender],
     ["Ciudades", p.cities],
     ["Distancia M\U{E1}xima", p.maxDistanceKm],
     ["Descripci\U{F3}n del Puesto", p.jobDescription],
     ["Fecha de Exportaci\U{F3}n", exportedAt],
     ["Total Candidatos", NatText(n)],
     ["", ""]]
  }

  function QuotedRows(cs: seq<Candidate>, fixed2: real -> string, num: real -> string): (r: seq<string>)
    ensures |r| == |cs|
    ensures forall i {:trigger r[i]} :: 0 <= i < |cs| ==> r[i] == QuotedRow(Row(cs[i], i, fixed2, num))
  {
    seq(|cs|, i requires 0 <= i < |cs| => QuotedRow(Row(cs[i], i, fixed2, num)))
  }

  /** `[...metadata, ...rows]` as written: metadata pairs, then the column
      names as bare strings, then the quoted rows. */
  function LinesAsWritten(cs: seq<Candidate>, p: SearchParams, exportedAt: string,
                          fixed2: real -> string, num: real -> string): (r: seq<Line>)
    ensures |r| == 11 + |Headers| + |cs|
    ensures forall i :: 0 <= i < 11 ==> r[i].Cells?
    ensures r[11] == Bare(Headers[0])
  {
    var m := Metadata(p, exportedAt, |cs|, num);
    seq(11, i requires 0 <= i < 11 => Cells(m[i])) +
    seq(|Headers|, i requires 0 <= i < |Headers| => Bare(Headers[i])) +
    seq(|cs|, i requires 0 <= i < |cs| => Cells(QuoteAll(Row(cs[i], i, fixed2, num))))
  }

  /** `csvContent` as written. */
  function ReportAsWritten(cs: seq<Candidate>, p: SearchParams, exportedAt: string,
                           fixed2: real -> string, num: real -> string): Outcome
  {
    AssembleStrict(LinesAsWritten(cs, p, exportedAt, fixed2, num))
  }

  /** Whatever the candidates and parameters, the report fails with a
      `TypeError` on line 11, the first column name. */
  lemma ReportAsWrittenFails(cs: seq<Candidate>, p: SearchParams, exportedAt: string,
                             fixed2: real -> string, num: real -> string)
    ensures ReportAsWritten(cs, p, exportedAt, fixed2, num) == TypeError(11)
  {
    var lines := LinesAsWritten(cs, p, exportedAt, fixed2, num);
    var r := AssembleStrict(lines);
    assert lines[11].Bare?;
  }

  /** The report lines with the column names written as one header row:
      eleven metadata lines, the header row, one line per candidate. */
  function Lines(cs: seq<Candidate>, p: SearchParams, exportedAt: string,
                 fixed2: real -> string, num: real -> string): (r: seq<string>)
    ensures |r| == 12 + |cs|
    ensures r[11] == HeaderRow()
    ensures forall i :: 0 <= i < |cs| ==> r[12 + i] == QuotedRow(Row(cs[i], i, fixed2, num))
  {
    var m := Metadata(p, exportedAt, |cs|, num);
    seq(11, i requires 0 <= i < 11 => Join(m[i], ",")) + [HeaderRow()] + QuotedRows(cs, fixed2, num)
  }

  /** `csvContent` with the header row. */
  function Report(cs: seq<Candidate>, p: SearchParams, exportedAt: string,
                  fixed2: real -> string, num: real -> string): string
  {
    Join(Lines(cs, p, exportedAt, fixed2, num), "\n")
  }

  /** In the corrected report the header row has the sixteen column names,
      and every candidate's line reads back as its sixteen cells, in the
      order of the list. */
  lemma ReportColumns(cs: seq<Candidate>, p: SearchParams, exportedAt: string,
                      fixed2: real -> string, num: real -> string, i: nat)
    requires i < |cs|
    ensures Split(Lines(cs, p, exportedAt, fixed2, num)[11], ',') == Headers
    ensures ParseRow(Lines(cs, p, exportedAt, fixed2, num)[12 + i]) == Some(Row(cs[i], i, fixed2, num))
    ensures |Row(cs[i], i, fixed2, num)| == |Headers| && Row(cs[i], i, fixed2, num)[0] == NatText(i + 1)
  {
    HeaderRowColumns();
    ParseQuotedRow(Row(cs[i], i, fixed2, num));
  }
}
