/** The record transformer: three stages over the scraped batch, always in
    the order clean (drop exact duplicates, fill a missing subtitle with
    `''`), validate (drop rows whose title or content is `None`), convert
    types (coerce the date, unparseable dates becoming `None`). The author is
    never defaulted and an unparseable date never becomes today's date. */
module GuardianTransformer {
  import opened Base
  import opened Records
  import opened Seqs

  /** Why `transform` raised. */
  datatype TransformError = MissingColumn(name: string)

  /** `drop_duplicates()` continuing after the rows in `seen` were kept. */
  function DedupFrom(rows: seq<Article>, seen: set<Article>): (r: seq<Article>)
    ensures NoDuplicates(r)
    ensures forall x :: x in r <==> x in rows && x !in seen
    ensures Subsequence(r, rows)
  {
    if rows == [] then []
    else if rows[0] in seen then DedupFrom(rows[1..], seen)
    else [rows[0]] + DedupFrom(rows[1..], seen + {rows[0]})
  }

  /** `df.drop_duplicates()`: rows identical in every field collapse to
      their first occurrence; the rest keep their order. */
  function Dedup(rows: seq<Article>): (r: seq<Article>)
    ensures NoDuplicates(r)
    ensures forall x :: x in r <==> x in rows
    ensures Subsequence(r, rows)
  {
    DedupFrom(rows, {})
  }

  /** Reference for "keep the first occurrence": a row is kept exactly when
      no equal row comes before it. */
  function FirstOccurrences(rows: seq<Article>): seq<Article> {
    if rows == [] then []
    else
      var init := rows[..|rows| - 1];
      FirstOccurrences(init) + if rows[|rows| - 1] in init then [] else [rows[|rows| - 1]]
  }

  /** Deduplicating one more row after a prefix. */
  lemma {:induction false} DedupFromSnoc(p: seq<Article>, y: Article, seen: set<Article>)
    ensures DedupFrom(p + [y], seen) == DedupFrom(p, seen) + if y in seen || y in p then [] else [y]
    decreases |p|
  {
    if p == [] {
      assert [y][1..] == [];
    } else {
      var x, q := p[0], p[1..];
      assert p + [y] == [x] + (q + [y]);
      assert (p + [y])[1..] == q + [y];
      assert y in p <==> y == x || y in q;
      if x in seen {
        calc {
          DedupFrom(p + [y], seen);
          DedupFrom(q + [y], seen);
          { DedupFromSnoc(q, y, seen); }
          DedupFrom(q, seen) + if y in seen || y in q then [] else [y];
        }
      } else {
        var seen' := seen + {x};
        var tail := if y in seen' || y in q then [] else [y];
        calc {
          DedupFrom(p + [y], seen);
          [x] + DedupFrom(q + [y], seen');
          { DedupFromSnoc(q, y, seen'); }
          [x] + (DedupFrom(q, seen') + tail);
          ([x] + DedupFrom(q, seen')) + tail;
        }
      }
    }
  }

  /** `drop_duplicates` keeps exactly the first occurrence of every row. */
  lemma {:induction false} DedupKeepsFirstOccurrences(rows: seq<Article>)
    ensures Dedup(rows) == FirstOccurrences(rows)
    decreases |rows|
  {
    if rows != [] {
      var init := rows[..|rows| - 1];
      DedupKeepsFirstOccurrences(init);
      DedupFromSnoc(init, rows[|rows| - 1], {});
      assert init + [rows[|rows| - 1]] == rows;
    }
  }

  /** One row after `fillna('')` on the subtitle column. */
  function FillRow(a: Article): (r: Article)
    ensures r.subtitle.Some?
    ensures a.subtitle.Some? ==> r == a
    ensures a.subtitle.None? ==> r == a.(subtitle := Some(""))
  {
    a.(subtitle := Some(a.subtitle.GetOr("")))
  }

  /** `df['subtitle'].fillna('')`: a missing subtitle becomes `''`, a
      present one is untouched, and nothing else changes. */
  function FillSubtitle(rows: seq<Article>): (r: seq<Article>)
    ensures |r| == |rows|
    ensures forall i :: 0 <= i < |r| ==> r[i] == FillRow(rows[i])
  {
    seq(|rows|, i requires 0 <= i < |rows| => FillRow(rows[i]))
  }

  /** Filling twice is filling once. */
  lemma FillSubtitleIdempotent(rows: seq<Article>)
    ensures FillSubtitle(FillSubtitle(rows)) == FillSubtitle(rows)
  {
  }

  /** `clean_data`: deduplicate, then fill subtitles; one row per distinct
      input row, each with a subtitle. */
  function CleanData(rows: seq<Article>): (r: seq<Article>)
    ensures |r| == |Dedup(rows)|
    ensures forall i :: 0 <= i < |r| ==> r[i].subtitle.Some?
  {
    FillSubtitle(Dedup(rows))
  }

  /** A row `dropna(subset=['title', 'content'])` keeps: both are present,
      and an empty string is present. */
  predicate Complete(a: Article) {
    a.title.Some? && a.content.Some?
  }

  /** `validate_data`: the rows `dropna` keeps, in order. */
  function ValidateData(rows: seq<Article>): (r: seq<Article>)
    ensures |r| <= |rows|
  {
    if rows == [] then []
    else if Complete(rows[0]) then [rows[0]] + ValidateData(rows[1..])
    else ValidateData(rows[1..])
  }

  /** Validation keeps the complete rows, each as often as in the input and
      in input order, and nothing else. */
  lemma {:induction false} ValidateDataSpec(rows: seq<Article>)
    ensures forall x :: Complete(x) ==> multiset(ValidateData(rows))[x] == multiset(rows)[x]
    ensures forall x :: !Complete(x) ==> multiset(ValidateData(rows))[x] == 0
    ensures Subsequence(ValidateData(rows), rows)
  {
    if rows != [] {
      ValidateDataSpec(rows[1..]);
      assert rows == [rows[0]] + rows[1..];
      assert multiset(rows) == multiset{rows[0]} + multiset(rows[1..]);
    }
  }

  /** `pd.to_datetime(..., errors='coerce').dt.date` on one cell: a missing
      value or one `toDate` cannot read becomes `None`. */
  function CoerceDate(date: Option<string>, toDate: string -> Option<Date>): (r: Option<Date>)
    ensures date.None? ==> r.None?
    ensures date.Some? ==> r == toDate(date.value)
  {
    match date
    case None => None
    case Some(s) => toDate(s)
  }

  /** `transform_data_types`: only the date column changes. */
  function TransformDataTypes(rows: seq<Article>, toDate: string -> Option<Date>): (r: seq<Row>)
    ensures |r| == |rows|
    ensures forall i :: 0 <= i < |r| ==>
      && r[i].articleDate == CoerceDate(rows[i].articleDate, toDate)
      && r[i].title == rows[i].title && r[i].subtitle == rows[i].subtitle
      && r[i].content == rows[i].content && r[i].author == rows[i].author
      && r[i].articleUrl == rows[i].articleUrl && r[i].section == rows[i].section
  {
    seq(|rows|, i requires 0 <= i < |rows| =>
      var a := rows[i];
      Row(a.title, a.subtitle, a.content, a.author, a.articleUrl, CoerceDate(a.articleDate, toDate), a.section))
  }

  /** The three stages in order, on any batch. */
  function CleanBatch(rows: seq<Article>, toDate: string -> Option<Date>): seq<Row> {
    TransformDataTypes(ValidateData(CleanData(rows)), toDate)
  }

  /** `transform`: `pd.DataFrame([])` has no `subtitle` column, so an empty
      batch raises `KeyError` in `clean_data`; any other batch goes through
      the three stages. */
  function Transform(rows: seq<Article>, toDate: string -> Option<Date>): (r: Result<seq<Row>, TransformError>)
    ensures r.Failure? <==> rows == []
    ensures r.Failure? ==> r.error == MissingColumn("subtitle")
    ensures r.Success? ==> r.value == CleanBatch(rows, toDate)
  {
    if rows == [] then Failure(MissingColumn("subtitle")) else Success(CleanBatch(rows, toDate))
  }

  /** An empty batch makes `transform` raise. */
  lemma TransformRejectsEmptyBatch(toDate: string -> Option<Date>)
    ensures Transform([], toDate) == Failure(MissingColumn("subtitle"))
  {
  }

  /** The stages on an empty batch give an empty batch, which the loader
      then leaves alone. */
  lemma CleanBatchOfEmpty(toDate: string -> Option<Date>)
    ensures CleanBatch([], toDate) == []
  {
  }

  /** How one scraped row appears in the output: the subtitle filled, the
      date coerced, every other field (the author included) as it was. */
  function Convert(a: Article, toDate: string -> Option<Date>): (r: Row)
    ensures r.author == a.author && r.title == a.title && r.content == a.content
    ensures r.articleUrl == a.articleUrl && r.section == a.section
    ensures r.subtitle == Some(a.subtitle.GetOr(""))
    ensures r.articleDate == CoerceDate(a.articleDate, toDate)
  {
    Row(a.title, Some(a.subtitle.GetOr("")), a.content, a.author, a.articleUrl, CoerceDate(a.articleDate, toDate), a.section)
  }

  /** Filling a row in front of a batch. */
  lemma FillCons(x: Article, rows: seq<Article>)
    ensures FillSubtitle([x] + rows) == [FillRow(x)] + FillSubtitle(rows)
  {
  }

  /** Validating a batch with a known first row. */
  lemma ValidateCons(x: Article, rows: seq<Article>)
    ensures ValidateData([x] + rows) == if Complete(x) then [x] + ValidateData(rows) else ValidateData(rows)
  {
    assert ([x] + rows)[0] == x;
    assert ([x] + rows)[1..] == rows;
  }

  /** Filling subtitles does not change which rows are complete. */
  lemma {:induction false} ValidateAfterFill(rows: seq<Article>)
    ensures ValidateData(FillSubtitle(rows)) == FillSubtitle(ValidateData(rows))
  {
    if rows != [] {
      var x, rest := rows[0], rows[1..];
      assert rows == [x] + rest;
      ValidateAfterFill(rest);
      FillCons(x, rest);
      ValidateCons(FillRow(x), FillSubtitle(rest));
      ValidateCons(x, rest);
      if Complete(x) {
        FillCons(x, ValidateData(rest));
      }
    }
  }

  /** The stages amount to converting the complete first occurrences. */
  lemma CleanBatchConverts(rows: seq<Article>, toDate: string -> Option<Date>)
    ensures var kept := ValidateData(Dedup(rows));
      && |CleanBatch(rows, toDate)| == |kept|
      && forall i :: 0 <= i < |kept| ==> CleanBatch(rows, toDate)[i] == Convert(kept[i], toDate)
  {
    var kept := ValidateData(Dedup(rows));
    ValidateAfterFill(Dedup(rows));
    assert ValidateData(CleanData(rows)) == FillSubtitle(kept);
  }

  /** The output is the conversion of the complete rows among the first
      occurrences, in input order: nothing is added or reordered, every
      output row has a title, a content and a subtitle, and every complete
      input row is represented. */
  lemma CleanBatchSpec(rows: seq<Article>, toDate: string -> Option<Date>)
    ensures var kept := ValidateData(Dedup(rows));
      && Subsequence(kept, rows)
      && |CleanBatch(rows, toDate)| == |kept|
      && forall i :: 0 <= i < |kept| ==> CleanBatch(rows, toDate)[i] == Convert(kept[i], toDate)
    ensures forall r :: r in CleanBatch(rows, toDate) ==> r.title.Some? && r.content.Some? && r.subtitle.Some?
    ensures forall a :: a in rows && Complete(a) ==> Convert(a, toDate) in CleanBatch(rows, toDate)
  {
    var d := Dedup(rows);
    var kept := ValidateData(d);
    CleanBatchConverts(rows, toDate);
    ValidateDataSpec(d);
    SubsequenceTransitive(kept, d, rows);
    CleanBatchRepresents(rows, toDate);
    CleanBatchFields(rows, toDate);
  }

  /** Every complete input row reaches the output, converted. */
  lemma CleanBatchRepresents(rows: seq<Article>, toDate: string -> Option<Date>)
    ensures forall a :: a in rows && Complete(a) ==> Convert(a, toDate) in CleanBatch(rows, toDate)
  {
    var d := Dedup(rows);
    var kept := ValidateData(d);
    var out := CleanBatch(rows, toDate);
    CleanBatchConverts(rows, toDate);
    ValidateDataSpec(d);
    forall a | a in rows && Complete(a) ensures Convert(a, toDate) in out {
      assert a in d;
      assert multiset(kept)[a] == multiset(d)[a];
      assert a in multiset(kept);
      var i :| 0 <= i < |kept| && kept[i] == a;
      assert out[i] == Convert(a, toDate);
    }
  }

  /** Every output row has a title, a content and a subtitle. */
  lemma CleanBatchFields(rows: seq<Article>, toDate: string -> Option<Date>)
    ensures forall r :: r in CleanBatch(rows, toDate) ==> r.title.Some? && r.content.Some? && r.subtitle.Some?
  {
    var kept := ValidateData(Dedup(rows));
    var out := CleanBatch(rows, toDate);
    CleanBatchConverts(rows, toDate);
    ValidateDataSpec(Dedup(rows));
    forall r | r in out ensures r.title.Some? && r.content.Some? && r.subtitle.Some? {
      var i :| 0 <= i < |out| && out[i] == r;
      assert kept[i] in multiset(kept);
      assert Complete(kept[i]);
    }
  }

  /** Conversely, the output is no longer than the input and every output
      row is the conversion of a complete input row. */
  lemma CleanBatchFromInput(rows: seq<Article>, toDate: string -> Option<Date>)
    ensures |CleanBatch(rows, toDate)| <= |rows|
    ensures forall r :: r in CleanBatch(rows, toDate) ==> exists a :: a in rows && Complete(a) && r == Convert(a, toDate)
  {
    var kept := ValidateData(Dedup(rows));
    var out := CleanBatch(rows, toDate);
    CleanBatchSpec(rows, toDate);
    ValidateDataSpec(Dedup(rows));
    SubsequenceElements(kept, rows);
    forall r | r in out ensures exists a :: a in rows && Complete(a) && r == Convert(a, toDate) {
      var i :| 0 <= i < |out| && out[i] == r;
      assert kept[i] in multiset(kept);
      assert kept[i] in kept;
      assert Complete(kept[i]);
    }
  }

  /** Subtitles are filled after deduplication, so two rows that differed
      only in a missing versus an empty subtitle both reach the output,
      identical. */
  lemma OutputMayRepeatRows(toDate: string -> Option<Date>)
    ensures var a := Article("world", Some("u"), None, Some("t"), None, Some("c"), None);
      var out := CleanBatch([a, a.(subtitle := Some(""))], toDate);
      |out| == 2 && out[0] == out[1]
  {
    var a := Article("world", Some("u"), None, Some("t"), None, Some("c"), None);
    var b := a.(subtitle := Some(""));
    assert a != b;
    assert [a, b][1..] == [b];
    assert [b][1..] == [];
    assert DedupFrom([b], {a}) == [b];
    assert {} + {a} == {a};
    assert DedupFrom([a, b], {}) == [a] + DedupFrom([b], {a});
    assert Dedup([a, b]) == [a, b];
    assert ValidateData([b]) == [b];
    assert ValidateData([a, b]) == [a] + ValidateData([b]);
    CleanBatchSpec([a, b], toDate);
  }
}
