/**
 * `clean_data`: drop non-positive quantities, drop exact duplicates (keeping
 * the first), drop rows with a missing cell, flag descriptions with more than
 * three distinct prices, and normalise the description, in that order.
 */
module Cleaning {
  import opened Wrappers
  import opened Seqs
  import opened Grouping
  import opened Records
  import opened Text

  /** A cleaned row: its columns with the description normalised, plus `VolatilePricing`. */
  datatype CleanRow = CleanRow(row: Row, volatilePricing: bool)

  /** A row that survives the three filters: a sale with no missing cell. */
  predicate Eligible(r: Row) { IsSale(r) && Complete(r) }

  /** The distinct prices recorded for description `d` in `rows`. */
  function DistinctPrices(rows: seq<Row>, d: string): set<int>
  {
    Values(Filter(rows, Member(Description, d)), Price)
  }

  /** Cleaning steps 1-3: `Quantity > 0`, then `drop_duplicates()`, then `dropna()`. */
  function Kept(df: seq<Row>): seq<Row>
  {
    Filter(Dedup(Filter(df, IsSale)), Complete)
  }

  /** `str.strip().str.title()` on the description column; a missing cell stays missing. */
  function NormalizeRow(r: Row): Row
  {
    r.(description := match r.description case None => None case Some(d) => Some(Normalize(d)))
  }

  /** `groupby('Description')['Price'].transform('nunique') > 3` for one row. */
  function Volatile(nunique: map<string, int>, r: Row): bool
  {
    r.description.Some? && Lookup(nunique)(r.description.value) > 3
  }

  /** `clean_data`. */
  function Clean(df: seq<Row>): seq<CleanRow>
  {
    var kept := Kept(df);
    var nunique := NUniqueBy(kept, Description, Price);
    seq(|kept|, i requires 0 <= i < |kept| => CleanRow(NormalizeRow(kept[i]), Volatile(nunique, kept[i])))
  }

  /**
   * The rows surviving the filters are exactly the first occurrences of the
   * eligible rows of the input, in input order: they form a duplicate-free
   * subsequence of the input, each is a sale with no missing cell, and every
   * eligible input row is represented.
   */
  lemma KeptSpec(df: seq<Row>)
    ensures Kept(df) == Filter(Dedup(df), Eligible)
    ensures forall x :: x in Kept(df) <==> x in df && IsSale(x) && Complete(x)
    ensures Distinct(Kept(df))
    ensures IsSubseq(Kept(df), df)
    ensures OrderedByFirst(Kept(df), df)
  {
    var d := Dedup(df);
    DedupFilter(df, IsSale);
    FilterFilter(d, IsSale, Complete, Eligible);
    var kept := Filter(d, Eligible);
    FilterSubseq(d, Eligible);
    DedupSubseq(df);
    SubseqTransitive(kept, d, df);
    SubseqDistinct(kept, d);
    DedupOrdered(df);
    SubseqOrdered(kept, d, df);
  }

  /** A duplicate-free frame of eligible rows passes the three filters unchanged. */
  lemma KeptFixedPoint(df: seq<Row>)
    requires Distinct(df) && forall x :: x in df ==> Eligible(x)
    ensures Kept(df) == df
  {
    FilterAll(df, IsSale);
    DedupDistinct(df);
    FilterAll(df, Complete);
  }

  /** Running the three filters again removes nothing. */
  lemma KeptIdempotent(df: seq<Row>)
    ensures Kept(Kept(df)) == Kept(df)
  {
    KeptSpec(df);
    KeptFixedPoint(Kept(df));
  }

  /**
   * Every cleaned row is a sale with no missing cell; it is the surviving row
   * in the same position with only its description normalised; and its
   * `VolatilePricing` flag holds exactly when the surviving rows with the
   * same pre-normalisation description show more than three distinct prices.
   */
  lemma CleanSpec(df: seq<Row>)
    ensures |Clean(df)| == |Kept(df)|
    ensures forall i :: 0 <= i < |Clean(df)| ==>
      var out, r := Clean(df)[i], Kept(df)[i];
      && out.row.quantity > 0
      && Complete(out.row)
      && out.row.(description := r.description) == r
      && out.row.description == Some(Normalize(r.description.value))
      && (out.volatilePricing <==> |DistinctPrices(Kept(df), r.description.value)| > 3)
  {
    forall i | 0 <= i < |Clean(df)| ensures
      var out, r := Clean(df)[i], Kept(df)[i];
      && out.row.quantity > 0
      && Complete(out.row)
      && out.row.(description := r.description) == r
      && out.row.description == Some(Normalize(r.description.value))
      && (out.volatilePricing <==> |DistinctPrices(Kept(df), r.description.value)| > 3)
    {
      CleanAt(df, i);
    }
  }

  lemma CleanAt(df: seq<Row>, i: nat)
    requires i < |Kept(df)|
    ensures |Clean(df)| == |Kept(df)|
    ensures var out, r := Clean(df)[i], Kept(df)[i];
      && out.row.quantity > 0
      && Complete(out.row)
      && out.row.(description := r.description) == r
      && out.row.description == Some(Normalize(r.description.value))
      && (out.volatilePricing <==> |DistinctPrices(Kept(df), r.description.value)| > 3)
  {
    var kept := Kept(df);
    var nunique := NUniqueBy(kept, Description, Price);
    var r := kept[i];
    assert r in kept;
    KeptSpec(df);
    assert Clean(df)[i] == CleanRow(NormalizeRow(r), Volatile(nunique, r));
    var d := r.description.value;
    assert Description(r) == Some(d);
    assert Present(kept, Description, d);
    assert nunique[d] == |DistinctPrices(kept, d)|;
  }

  /**
   * Distinct cleaned rows can only coincide through normalisation: two
   * positions holding the same cleaned row come from surviving rows whose
   * descriptions differ and normalise to the same text.
   */
  lemma CleanRepeatsOnlyByNormalization(df: seq<Row>, i: nat, j: nat)
    requires i < j < |Clean(df)|
    requires Clean(df)[i].row == Clean(df)[j].row
    ensures Kept(df)[i].description != Kept(df)[j].description
    ensures Normalize(Kept(df)[i].description.value) == Normalize(Kept(df)[j].description.value)
  {
    CleanSpec(df);
    KeptSpec(df);
    var a, b := Kept(df)[i], Kept(df)[j];
    assert a != b;
    assert a.(description := b.description) == b;
  }

  /**
   * Because deduplication runs before normalisation, the cleaned output can
   * hold two equal records: two eligible rows that differ only in a
   * description that normalises to the same text survive deduplication and
   * are equal afterwards.
   */
  lemma CleanMayRepeatRecords(a: Row, b: Row)
    requires Eligible(a) && Eligible(b) && a != b
    requires a.(description := b.description) == b
    requires Normalize(a.description.value) == Normalize(b.description.value)
    ensures |Clean([a, b])| == 2
    ensures Clean([a, b])[0] == Clean([a, b])[1]
  {
    var df := [a, b];
    KeptFixedPoint(df);
    CleanAt(df, 0);
    CleanAt(df, 1);
    ValuesBound(Filter(df, Member(Description, a.description.value)), Price);
    ValuesBound(Filter(df, Member(Description, b.description.value)), Price);
  }

  /** A sale row of the extract with description `d`. */
  function Sample(d: string): Row
  {
    Row(Some("536365"), Some("85123A"), Some(d), 6, Some(Timestamp(2010, 12, 1, 8, 26, 0)), 255,
        Some(17850), Some("United Kingdom"), 1530, Some(YearMonth(2010, 12)))
  }

  /** The rows with descriptions `" a"` and `"a"` are such a pair. */
  lemma SampleQualifies()
    ensures var a, b := Sample(" a"), Sample("a");
      && Eligible(a) && Eligible(b) && a != b
      && a.(description := b.description) == b
      && Normalize(a.description.value) == Normalize(b.description.value)
  {
    var a, b := Sample(" a"), Sample("a");
    assert Eligible(a) && Eligible(b);
    assert a.(description := b.description) == b;
    assert a != b by {
      assert a.description.value != b.description.value by {
        assert |" a"| != |"a"|;
      }
    }
    StripSamples();
  }

  lemma StripSamples()
    ensures Strip(" a") == "a" && Strip("a") == "a"
  {
    assert LeadingSpaces(" a") == 1 by {
      assert IsSpace(" a"[0]) && !IsSpace(" a"[1]);
    }
    assert " a"[1..] == "a";
    StripTrimmed("a");
  }
}
