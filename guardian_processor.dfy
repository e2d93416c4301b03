/** The CSV processor: it removes the subtitle from every row's content and
    names the output file after the minute it runs in. */
module GuardianProcessor {
  import opened Base
  import opened Text
  import opened Records

  /** `str(value)` of a cell: a missing value prints as `None`. */
  function CellText(v: Option<string>): (r: string)
    ensures v.Some? ==> r == v.value
    ensures v.None? ==> r == "None" && r != ""
  {
    match v
    case None => "None"
    case Some(s) => s
  }

  /** The cleaned text for a stripped, non-empty subtitle `sub` and stripped
      content `con`: the first occurrence of `sub` removed, then stripped. */
  function RemoveSubtitle(sub: string, con: string): (r: string)
    ensures NoEdgeSpace(r)
  {
    Strip(ReplaceFirst(con, sub, ""))
  }

  /** The content `clean_row` leaves in a row. When the stripped subtitle or
      the stripped content is empty the cell is left exactly as it was (not
      even stripped); otherwise the subtitle is removed from the content. */
  function CleanContent(subtitle: Option<string>, content: Option<string>): (r: Option<string>)
    ensures Strip(CellText(subtitle)) == "" || Strip(CellText(content)) == "" ==> r == content
    ensures Strip(CellText(subtitle)) != "" && Strip(CellText(content)) != "" ==>
      r == Some(RemoveSubtitle(Strip(CellText(subtitle)), Strip(CellText(content)))) && NoEdgeSpace(r.value)
  {
    var sub := Strip(CellText(subtitle));
    var con := Strip(CellText(content));
    if sub == "" || con == "" then content
    else Some(RemoveSubtitle(sub, con))
  }

  /** Removing the first occurrence of `pat` at index `i`. */
  lemma ReplaceFirstAt(s: string, pat: string, i: nat)
    requires Find(s, pat) == Some(i)
    ensures ReplaceFirst(s, pat, "") == s[..i] + s[i + |pat|..]
  {
  }

  /** An occurrence anywhere means `pat in s`. */
  lemma OccurrenceContains(s: string, pat: string, j: int)
    requires OccursAt(s, pat, j)
    ensures Contains(s, pat)
  {
  }

  /** A non-space character of `s` survives stripping. */
  lemma StripKeepsNonSpace(s: string, j: int)
    requires 0 <= j < |s| && !IsSpace(s[j])
    ensures Front(s) <= j < Back(s)
  {
  }

  /** Stripping cannot cut into an occurrence of a pattern that starts and
      ends with a non-space character. */
  lemma StripKeepsOccurrence(s: string, pat: string, j: int)
    requires pat != [] && NoEdgeSpace(pat)
    requires OccursAt(s, pat, j)
    ensures Contains(Strip(s), pat)
  {
    var e := j + |pat|;
    assert s[j] == pat[0] && s[e - 1] == pat[|pat| - 1] by {
      assert s[j..e][0] == s[j];
      assert s[j..e][|pat| - 1] == s[e - 1];
    }
    StripKeepsNonSpace(s, j);
    StripKeepsNonSpace(s, e - 1);
    var f := Front(s);
    SliceWithin(s, f, Back(s), j, e);
    OccurrenceContains(Strip(s), pat, j - f);
  }

  /** A slice of a slice is a slice of the whole. */
  lemma SliceWithin(s: string, f: nat, b: nat, j: nat, e: nat)
    requires f <= j <= e <= b <= |s|
    ensures s[f..b][j - f..e - f] == s[j..e]
  {
    forall x | 0 <= x < e - j ensures s[f..b][j - f..e - f][x] == s[j..e][x] {
      assert s[f..b][j - f + x] == s[j + x];
    }
  }

  /** The result is shorter than the content by at least the subtitle's
      length when the subtitle occurs, and never longer in any case. */
  lemma RemoveSubtitleLength(sub: string, con: string)
    ensures Contains(con, sub) ==> |RemoveSubtitle(sub, con)| <= |con| - |sub|
    ensures |RemoveSubtitle(sub, con)| <= |con|
  {
    match Find(con, sub)
    case None =>
    case Some(i) => ReplaceFirstAt(con, sub, i);
  }

  /** A subtitle that does not occur in the stripped content leaves just
      that content. */
  lemma RemoveAbsentSubtitle(sub: string, con: string)
    requires NoEdgeSpace(con)
    requires !Contains(con, sub)
    ensures RemoveSubtitle(sub, con) == con
  {
    StripNoEdgeSpace(con);
  }

  /** Only the first occurrence is removed: an occurrence that starts after
      the first one ends is still in the result. */
  lemma RemoveKeepsLaterOccurrence(sub: string, con: string, j: int)
    requires sub != [] && NoEdgeSpace(sub)
    requires OccursAt(con, sub, j)
    requires Find(con, sub).value + |sub| <= j
    ensures Contains(RemoveSubtitle(sub, con), sub)
  {
    var i := Find(con, sub).value;
    ReplaceFirstAt(con, sub, i);
    CutKeepsLaterOccurrence(con, sub, i, j);
    StripKeepsOccurrence(con[..i] + con[i + |sub|..], sub, j - |sub|);
  }

  /** Cutting `|pat|` characters at `i` moves a later occurrence of `pat`
      back by `|pat|`. */
  lemma CutKeepsLaterOccurrence(s: string, pat: string, i: nat, j: int)
    requires i + |pat| <= j && OccursAt(s, pat, j)
    ensures OccursAt(s[..i] + s[i + |pat|..], pat, j - |pat|)
  {
    var n := |pat|;
    var t := s[..i] + s[i + n..];
    forall x | j - n <= x < j ensures t[x] == s[x + n] {
      assert t[x] == s[i + n..][x - i];
    }
    assert t[j - n..j] == s[j..j + n];
  }

  /** Stripping a string whose last character is not a space only trims
      its front. */
  lemma StripIsTrimLeft(x: string)
    requires x == [] || !IsSpace(x[|x| - 1])
    ensures Strip(x) == TrimLeft(x)
  {
    assert Back(x) == |x|;
  }

  /** A subtitle that begins the stripped content is cut off together with
      the whitespace after it. */
  lemma RemoveLeadingSubtitle(sub: string, con: string)
    requires NoEdgeSpace(con)
    requires sub <= con
    ensures RemoveSubtitle(sub, con) == TrimLeft(con[|sub|..])
  {
    assert OccursAt(con, sub, 0);
    assert Find(con, sub) == Some(0);
    var rest := con[|sub|..];
    assert ReplaceFirst(con, sub, "") == rest;
    assert rest == [] || rest[|rest| - 1] == con[|con| - 1];
    StripIsTrimLeft(rest);
  }

  /** A missing content prints as `None`, which is not empty, so with a
      non-empty subtitle that is not part of `None` the cell becomes the
      text `None`. */
  lemma MissingContentBecomesText(subtitle: Option<string>)
    requires Strip(CellText(subtitle)) != ""
    requires !Contains("None", Strip(CellText(subtitle)))
    ensures CleanContent(subtitle, None) == Some("None")
  {
    StripNoEdgeSpace("None");
    RemoveAbsentSubtitle(Strip(CellText(subtitle)), "None");
  }

  /** `clean_row`: only the content changes. */
  function CleanRow(row: Article): (r: Article)
    ensures r.(content := row.content) == row
    ensures r.content == CleanContent(row.subtitle, row.content)
  {
    row.(content := CleanContent(row.subtitle, row.content))
  }

  /** `clean_subtitle_from_content`: every row cleaned, none added, dropped
      or reordered. */
  function CleanSubtitleFromContent(rows: seq<Article>): (r: seq<Article>)
    ensures |r| == |rows|
    ensures forall i :: 0 <= i < |r| ==> r[i] == CleanRow(rows[i])
  {
    seq(|rows|, i requires 0 <= i < |rows| => CleanRow(rows[i]))
  }

  /** The `%Y-%m-%d_%H-%M` timestamp. */
  function Timestamp(now: DateTime): (r: string)
    ensures |r| == 16
  {
    FormatDate(now) + "_" + Pad2(now.hour) + "-" + Pad2(now.minute)
  }

  /** Reads a timestamp back to its date, hour and minute. */
  function ReadTimestamp(s: string): Option<(Date, int, int)> {
    if |s| == 16 && s[10] == '_' && s[13] == '-' && IsDigit(s[11]) && IsDigit(s[12])
      && IsDigit(s[14]) && IsDigit(s[15])
    then
      match ReadDate(s[..10])
      case None => None
      case Some(d) => Some((d, DigitsValue(s[11..13]), DigitsValue(s[14..16])))
    else None
  }

  /** The timestamp keeps the date, hour and minute, and nothing finer. */
  lemma ReadTimestampOfTimestamp(now: DateTime)
    ensures ReadTimestamp(Timestamp(now)) == Some((Date(now.year, now.month, now.day), now.hour, now.minute))
  {
    var s := Timestamp(now);
    assert s[..10] == FormatDate(now);
    assert s[11..13] == Pad2(now.hour);
    assert s[14..16] == Pad2(now.minute);
  }

  /** `theguardian_articles_<timestamp>.csv`. */
  function FileName(now: DateTime): string {
    "theguardian_articles_" + Timestamp(now) + ".csv"
  }

  /** `os.path.join(dir, name)` for a relative `name`. */
  function JoinPath(dir: string, name: string): (r: string)
    ensures |r| >= |name|
    ensures dir == "" ==> r == name
    ensures dir != "" ==> dir <= r && r[|r| - |name|..] == name
    ensures dir != "" && dir[|dir| - 1] != '/' ==> r == dir + "/" + name
  {
    if dir == "" || dir[|dir| - 1] == '/' then dir + name else dir + "/" + name
  }

  /** The path `process` writes to and returns. */
  function OutputFile(outputDir: string, now: DateTime): (r: string)
    ensures |r| >= |FileName(now)| && r[|r| - |FileName(now)|..] == FileName(now)
  {
    JoinPath(outputDir, FileName(now))
  }

  /** Two runs write the same file exactly when they fall in the same minute
      of the same day: a later run in that minute overwrites the earlier one. */
  lemma OutputFileSameMinute(outputDir: string, a: DateTime, b: DateTime)
    ensures OutputFile(outputDir, a) == OutputFile(outputDir, b) <==>
      a.(second := 0) == b.(second := 0)
  {
    if OutputFile(outputDir, a) == OutputFile(outputDir, b) {
      var p := OutputFile(outputDir, a);
      assert |FileName(a)| == |FileName(b)|;
      assert FileName(a) == p[|p| - |FileName(a)|..] == FileName(b);
      assert Timestamp(a) == FileName(a)[21..37];
      assert Timestamp(b) == FileName(b)[21..37];
      ReadTimestampOfTimestamp(a);
      ReadTimestampOfTimestamp(b);
    }
  }

  /** What `process` leaves behind: the file it wrote and the rows in it. */
  datatype Output = Output(path: string, rows: seq<Article>)

  /** `process`: the cleaned batch, written to the timestamped file whose
      path is returned. */
  function Process(outputDir: string, data: seq<Article>, now: DateTime): (r: Output)
    ensures r.path == OutputFile(outputDir, now)
    ensures |r.rows| == |data|
    ensures forall i :: 0 <= i < |data| ==> r.rows[i] == CleanRow(data[i])
  {
    Output(OutputFile(outputDir, now), CleanSubtitleFromContent(data))
  }
}
