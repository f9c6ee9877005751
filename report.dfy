/**
 * The text written to `results.jsonc`: the source and one line per result
 * entry, in `Object.entries` order. How a score is printed with three
 * decimals and how a string is quoted as a JSON literal are parameters.
 */
module Report {
  import opened Wrappers
  import opened Strings
  import opened JsObject
  import opened Query

  /** Calling `toFixed` on an `undefined` score throws. */
  datatype FormatError = ScoreUndefined(key: string)

  const Header1: string := "{"
  const Header3: string := "\t\"results\": ["
  const Footer1: string := "\t],"
  const Footer2: string := "}"

  /** The line announcing the source, as a JSON string literal. */
  function SourceLine(quotedSource: string): string
  {
    "\t\"source\": " + quotedSource + ","
  }

  /** `\t\t[<score>, <label>],` */
  function EntryLine(scoreText: string, quotedLabel: string): (r: string)
    ensures '\n' in r <==> '\n' in scoreText || '\n' in quotedLabel
  {
    "\t\t[" + scoreText + ", " + quotedLabel + "],"
  }

  /** The entry lines, or the first entry whose score is undefined. */
  function EntryLines<V>(es: seq<(string, Option<V>)>, fixed3: V -> string, quote: string -> string)
    : (r: Result<seq<string>, FormatError>)
    ensures r.Ok? ==> |r.value| == |es|
  {
    if es == [] then Ok([])
    else if es[0].1.None? then Err(ScoreUndefined(es[0].0))
    else
      match EntryLines(es[1..], fixed3, quote)
      case Err(e) => Err(e)
      case Ok(rest) => Ok([EntryLine(fixed3(es[0].1.value), quote(es[0].0))] + rest)
  }

  /** The whole report. */
  function Format<V>(r: QueryResult<V>, fixed3: V -> string, quote: string -> string)
    : (out: Result<string, FormatError>)
    requires Valid(r.results)
    ensures out.Ok? <==> forall i :: 0 <= i < |Entries(r.results)| ==> Entries(r.results)[i].1.Some?
    ensures out.Err? ==> out.error == ScoreUndefined(Entries(r.results)[FirstUndefined(Entries(r.results))].0)
  {
    EntryLinesSpec(Entries(r.results), fixed3, quote);
    match EntryLines(Entries(r.results), fixed3, quote)
    case Err(e) => Err(e)
    case Ok(lines) => Ok(ReportText(quote(r.source), lines))
  }

  /** The template filled in with the quoted source and the entry lines. */
  function ReportText(quotedSource: string, lines: seq<string>): (r: string)
    ensures |r| > 0 && r[0] == '{' && r[|r| - 1] == '}'
  {
    Header1 + "\n" + SourceLine(quotedSource) + "\n" + Header3 + "\n"
      + JoinWith(lines, '\n') + "\n" + Footer1 + "\n" + Footer2
  }

  /** Position of the first entry whose score is undefined. */
  function FirstUndefined<V>(es: seq<(string, Option<V>)>): (i: nat)
    requires exists j :: 0 <= j < |es| && es[j].1.None?
    ensures i < |es| && es[i].1.None? && forall j :: 0 <= j < i ==> es[j].1.Some?
  {
    if es[0].1.None? then 0
    else
      assert exists j :: 0 <= j < |es[1..]| && es[1..][j].1.None? by {
        var j :| 0 <= j < |es| && es[j].1.None?;
        assert es[1..][j - 1] == es[j];
      }
      1 + FirstUndefined(es[1..])
  }

  /**
   * The entry lines succeed exactly when every score is defined; then line i
   * shows entry i. Otherwise the failure names the first entry without a score.
   */
  lemma {:induction false} EntryLinesSpec<V>(es: seq<(string, Option<V>)>, fixed3: V -> string, quote: string -> string)
    ensures EntryLines(es, fixed3, quote).Ok? <==> forall i :: 0 <= i < |es| ==> es[i].1.Some?
    ensures EntryLines(es, fixed3, quote).Ok? ==>
      forall i :: 0 <= i < |es| ==>
        EntryLines(es, fixed3, quote).value[i] == EntryLine(fixed3(es[i].1.value), quote(es[i].0))
    ensures EntryLines(es, fixed3, quote).Err? ==>
      EntryLines(es, fixed3, quote).error == ScoreUndefined(es[FirstUndefined(es)].0)
  {
    if es != [] {
      EntryLinesSpec(es[1..], fixed3, quote);
      if es[0].1.Some? && EntryLines(es[1..], fixed3, quote).Err? {
        var i := FirstUndefined(es[1..]);
        assert es[1..][i] == es[i + 1];
        assert FirstUndefined(es) == i + 1;
      }
      if EntryLines(es, fixed3, quote).Ok? {
        forall i | 0 <= i < |es| ensures es[i].1.Some? {
          if i > 0 {
            assert es[i] == es[1..][i - 1];
          }
        }
      } else if es[0].1.Some? {
        var i :| 0 <= i < |es[1..]| && es[1..][i].1.None?;
        assert es[i + 1] == es[1..][i];
      }
    }
  }

  /** No line break inside a quoted label or a printed score. */
  ghost predicate SingleLineOutput<V(!new)>(fixed3: V -> string, quote: string -> string) {
    && (forall v :: '\n' !in fixed3(v))
    && (forall s :: '\n' !in quote(s))
  }

  /** An entry line is one line. */
  lemma EntryLineSingle(scoreText: string, quotedLabel: string)
    requires '\n' !in scoreText && '\n' !in quotedLabel
    ensures '\n' !in EntryLine(scoreText, quotedLabel)
  {
  }

  /** The text split at its line breaks, when the entries are printed as `lines`. */
  function ReportLines(quotedSource: string, lines: seq<string>): seq<string>
  {
    [Header1, SourceLine(quotedSource), Header3] + (if lines == [] then [""] else lines) + [Footer1, Footer2]
  }

  /** The report is its lines joined with line breaks. */
  lemma FormatJoin(quotedSource: string, lines: seq<string>)
    ensures JoinWith(ReportLines(quotedSource, lines), '\n') == ReportText(quotedSource, lines)
  {
    var head := [Header1, SourceLine(quotedSource), Header3];
    var mid := if lines == [] then [""] else lines;
    var tail := [Footer1, Footer2];
    JoinAppend(head + mid, tail, '\n');
    JoinAppend(head, mid, '\n');
    assert JoinWith(head, '\n') == Header1 + "\n" + SourceLine(quotedSource) + "\n" + Header3 by {
      assert head[1..] == [SourceLine(quotedSource), Header3];
      assert head[1..][1..] == [Header3];
      assert JoinWith(head[1..], '\n') == SourceLine(quotedSource) + "\n" + Header3;
    }
    assert JoinWith(tail, '\n') == Footer1 + "\n" + Footer2 by {
      assert tail[1..] == [Footer2];
    }
    assert JoinWith(mid, '\n') == JoinWith(lines, '\n');
  }

  /** The header and footer lines hold no line break. */
  lemma FixedLinesSingle(quotedSource: string)
    requires '\n' !in quotedSource
    ensures '\n' !in Header1 && '\n' !in SourceLine(quotedSource) && '\n' !in Header3
    ensures '\n' !in Footer1 && '\n' !in Footer2
  {
  }

  /** No piece holds a line break. */
  predicate Unbroken(pieces: seq<string>) {
    forall i :: 0 <= i < |pieces| ==> '\n' !in pieces[i]
  }

  lemma UnbrokenAppend(a: seq<string>, b: seq<string>)
    requires Unbroken(a) && Unbroken(b)
    ensures Unbroken(a + b)
  {
    forall i | 0 <= i < |a + b| ensures '\n' !in (a + b)[i] {
      if i < |a| {
        assert (a + b)[i] == a[i];
      } else {
        assert (a + b)[i] == b[i - |a|];
      }
    }
  }

  /** Splitting the report at its line breaks gives back its lines when no entry line holds one. */
  lemma FormatSplit(quotedSource: string, lines: seq<string>)
    requires '\n' !in quotedSource
    requires Unbroken(lines)
    ensures SplitOn(ReportText(quotedSource, lines), '\n') == ReportLines(quotedSource, lines)
  {
    var head := [Header1, SourceLine(quotedSource), Header3];
    var mid := if lines == [] then [""] else lines;
    var tail := [Footer1, Footer2];
    FormatJoin(quotedSource, lines);
    FixedLinesSingle(quotedSource);
    assert Unbroken(mid);
    UnbrokenAppend(head, mid);
    UnbrokenAppend(head + mid, tail);
    assert ReportLines(quotedSource, lines) == head + mid + tail;
    SplitJoin(ReportLines(quotedSource, lines), '\n');
  }

  /** With every score defined, entry i is printed on line i of the entries. */
  lemma FormatLines<V>(r: QueryResult<V>, fixed3: V -> string, quote: string -> string)
    requires Valid(r.results)
    requires forall i :: 0 <= i < |Entries(r.results)| ==> Entries(r.results)[i].1.Some?
    ensures Format(r, fixed3, quote).Ok?
    ensures EntryLines(Entries(r.results), fixed3, quote).Ok?
    ensures Format(r, fixed3, quote).value ==
      ReportText(quote(r.source), EntryLines(Entries(r.results), fixed3, quote).value)
  {
    EntryLinesSpec(Entries(r.results), fixed3, quote);
  }

  /**
   * When every score is defined, the report consists of a three-line header,
   * one line per entry in `Object.entries` order (an empty line when there
   * are none) and a two-line footer; otherwise it fails.
   */
  lemma FormatShape<V(!new)>(r: QueryResult<V>, fixed3: V -> string, quote: string -> string)
    requires Valid(r.results)
    requires SingleLineOutput(fixed3, quote)
    ensures var es := Entries(r.results);
      Format(r, fixed3, quote).Ok? <==> forall i :: 0 <= i < |es| ==> es[i].1.Some?
    ensures var es := Entries(r.results);
      Format(r, fixed3, quote).Ok? ==>
        exists lines: seq<string> ::
          && |lines| == |es|
          && (forall i :: 0 <= i < |es| ==> lines[i] == EntryLine(fixed3(es[i].1.value), quote(es[i].0)))
          && SplitOn(Format(r, fixed3, quote).value, '\n') == ReportLines(quote(r.source), lines)
  {
    var es := Entries(r.results);
    EntryLinesSpec(es, fixed3, quote);
    if Format(r, fixed3, quote).Ok? {
      FormatLines(r, fixed3, quote);
      var lines := EntryLines(es, fixed3, quote).value;
      forall i | 0 <= i < |lines| ensures '\n' !in lines[i] {
        EntryLineSingle(fixed3(es[i].1.value), quote(es[i].0));
      }
      assert Unbroken(lines);
      FormatSplit(quote(r.source), lines);
      assert |lines| == |es|;
    }
  }

  /** When a score is undefined, formatting fails on the first entry without one. */
  lemma FormatFails<V>(r: QueryResult<V>, fixed3: V -> string, quote: string -> string)
    requires Valid(r.results)
    requires exists i :: 0 <= i < |Entries(r.results)| && Entries(r.results)[i].1.None?
    ensures Format(r, fixed3, quote) == Err(ScoreUndefined(Entries(r.results)[FirstUndefined(Entries(r.results))].0))
  {
    EntryLinesSpec(Entries(r.results), fixed3, quote);
  }

  /**
   * For targets that are pairwise different and none of them an array index,
   * with a score for each, the report lists every target once, in target
   * order, next to its own score.
   */
  lemma ReportInTargetOrder<V(!new)>(source: string, targets: seq<string>, scores: seq<V>,
                                     fixed3: V -> string, quote: string -> string)
    requires forall i, j :: 0 <= i < j < |targets| ==> targets[i] != targets[j]
    requires forall i :: 0 <= i < |targets| ==> !IsArrayIndex(targets[i])
    requires |targets| <= |scores|
    requires SingleLineOutput(fixed3, quote)
    ensures Valid(RunQuery(source, targets, scores).results)
    ensures Format(RunQuery(source, targets, scores), fixed3, quote).Ok?
    ensures SplitOn(Format(RunQuery(source, targets, scores), fixed3, quote).value, '\n')
      == ReportLines(quote(source), TargetLines(targets, scores, fixed3, quote))
  {
    var r := RunQuery(source, targets, scores);
    RunQueryEntries(source, targets, scores);
    var es := Entries(r.results);
    FormatLines(r, fixed3, quote);
    var lines := EntryLines(es, fixed3, quote).value;
    ScoredLines(targets, scores, fixed3, quote);
    FormatSplit(quote(source), lines);
  }

  /** The entry line of each target with its own score, in target order. */
  function TargetLines<V>(targets: seq<string>, scores: seq<V>, fixed3: V -> string, quote: string -> string)
    : (r: seq<string>)
    requires |targets| <= |scores|
    ensures |r| == |targets|
    ensures forall i :: 0 <= i < |targets| ==> r[i] == EntryLine(fixed3(scores[i]), quote(targets[i]))
  {
    seq(|targets|, i requires 0 <= i < |targets| => EntryLine(fixed3(scores[i]), quote(targets[i])))
  }

  /** The entry lines of fully scored entries, one per target in target order. */
  lemma ScoredLines<V(!new)>(targets: seq<string>, scores: seq<V>, fixed3: V -> string, quote: string -> string)
    requires |targets| <= |scores|
    requires SingleLineOutput(fixed3, quote)
    ensures EntryLines(ScoredEntries(targets, scores), fixed3, quote).Ok?
    ensures EntryLines(ScoredEntries(targets, scores), fixed3, quote).value
      == TargetLines(targets, scores, fixed3, quote)
    ensures Unbroken(EntryLines(ScoredEntries(targets, scores), fixed3, quote).value)
  {
    var es := ScoredEntries(targets, scores);
    EntryLinesSpec(es, fixed3, quote);
    var lines := EntryLines(es, fixed3, quote).value;
    forall i | 0 <= i < |lines| ensures '\n' !in lines[i] {
      EntryLineSingle(fixed3(scores[i]), quote(targets[i]));
    }
  }
}
