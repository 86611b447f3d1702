/**
 * The widget's quote repository: normalising the bundled corpus records into
 * quotes, and resolving the quote of a given day from the host application's
 * shared payload, the corpus, or the placeholder, in that order.
 */
module QuoteRepository {
  import opened Wrappers
  import opened FoundationText
  import opened SharedModels

  // ---------------------------------------------------------------------------
  // Corpus records and their normalisation
  // ---------------------------------------------------------------------------

  /** A quote and author with no surrounding whitespace, and a category of the same shape if any. */
  predicate IsNormalized(q: Quote) {
    && IsTrimmedNonEmpty(q.text)
    && IsTrimmedNonEmpty(q.author)
    && (q.category.Some? ==> IsTrimmedNonEmpty(q.category.value))
  }

  /** `cleaned`: the trimmed value, or none when the value is missing or blank. */
  function Cleaned(value: Option<string>): (r: Option<string>)
    ensures r.None? <==> value.None? || Blank(value.value)
    ensures r.Some? ==> r.value == Trim(value.value) && IsTrimmedNonEmpty(r.value)
  {
    match value
    case None => None
    case Some(v) => var trimmed := Trim(v); if trimmed == [] then None else Some(trimmed)
  }

  /** `formatted(category:)`: the category in title case. */
  function Formatted(category: string): (r: string)
    ensures |r| == |category|
    ensures IsTrimmedNonEmpty(category) ==> IsTrimmedNonEmpty(r)
    ensures ('-' in r <==> '-' in category) && ('_' in r <==> '_' in category)
  {
    CapitalizedKeepsNonLetters(category);
    if IsTrimmedNonEmpty(category) then CapitalizedKeepsTrimmed(category); Capitalized(category)
    else Capitalized(category)
  }

  /** A tag that may serve as a category: non-blank, and neither `-` nor `_` in its trimmed form. */
  predicate IsCategoryTag(tag: string) {
    var t := Trim(tag);
    t != [] && '-' !in t && '_' !in t
  }

  /** The category taken from the first tag that may serve as one, formatted. */
  function CategoryFromTags(tags: seq<string>): (r: Option<string>)
    ensures r.Some? ==> IsTrimmedNonEmpty(r.value) && '-' !in r.value && '_' !in r.value
    decreases |tags|
  {
    if tags == [] then None
    else
      match Cleaned(Some(tags[0]))
      case None => CategoryFromTags(tags[1..])
      case Some(t) =>
        if '-' in t || '_' in t then CategoryFromTags(tags[1..])
        else Some(Formatted(t))
  }

  /** One raw corpus entry, as decoded from the `Quote`, `Author`, `Tags` and `Category` fields. */
  datatype QuoteRecord = QuoteRecord(quote: string, author: string, tags: Option<seq<string>>, category: Option<string>) {

    /** The record survives normalisation: neither its quote nor its author is blank. */
    predicate Usable() {
      !Blank(quote) && !Blank(author)
    }

    /** `toQuote`: the normalised quote under the given id, or none for a record with a blank quote or author. */
    function ToQuote(id: string): (q: Option<Quote>)
      ensures q.None? <==> Blank(quote) || Blank(author)
      ensures q.Some? ==>
        && q.value.id == id
        && q.value.text == Trim(quote) && q.value.author == Trim(author)
        && q.value.category == CategoryOf(this)
      ensures q.Some? ==> IsNormalized(q.value)
    {
      var trimmedQuote := Trim(quote);
      var trimmedAuthor := Trim(author);
      if trimmedQuote == [] || trimmedAuthor == [] then None
      else Some(NewQuote(id, trimmedQuote, trimmedAuthor, CategoryOf(this)))
    }
  }

  /**
   * The category `normalizedCategory` derives: a non-blank explicit category,
   * formatted; otherwise the category of the tags, if the record has tags.
   */
  function CategoryOf(record: QuoteRecord): (r: Option<string>)
    ensures r.Some? ==> IsTrimmedNonEmpty(r.value)
  {
    match Cleaned(record.category)
    case Some(explicit) => Some(Formatted(explicit))
    case None =>
      match record.tags
      case None => None
      case Some(tags) => CategoryFromTags(tags)
  }

  /** `normalizedCategory`, with its first-match loop over the tags. */
  method NormalizedCategory(record: QuoteRecord) returns (r: Option<string>)
    ensures r == CategoryOf(record)
  {
    var explicit := Cleaned(record.category);
    if explicit.Some? {
      return Some(Formatted(explicit.value));
    }
    if record.tags.None? {
      return None;
    }
    var tags := record.tags.value;
    for i := 0 to |tags|
      invariant CategoryFromTags(tags[i..]) == CategoryFromTags(tags)
    {
      assert tags[i..][0] == tags[i] && tags[i..][1..] == tags[i + 1..];
      var cleanedTag := Cleaned(Some(tags[i]));
      if cleanedTag.None? {
        continue;
      }
      if '-' in cleanedTag.value || '_' in cleanedTag.value {
        continue;
      }
      return Some(Formatted(cleanedTag.value));
    }
    return None;
  }

  /** The first tag that may serve as a category decides it, whatever follows. */
  lemma {:induction false} CategoryFromTagsFirstMatch(tags: seq<string>, i: nat)
    requires i < |tags| && IsCategoryTag(tags[i])
    requires forall j :: 0 <= j < i ==> !IsCategoryTag(tags[j])
    ensures CategoryFromTags(tags) == Some(Formatted(Trim(tags[i])))
    decreases i
  {
    if i > 0 {
      assert !IsCategoryTag(tags[0]);
      assert tags[1..][i - 1] == tags[i];
      CategoryFromTagsFirstMatch(tags[1..], i - 1);
    }
  }

  /** The tags yield no category exactly when none of them may serve as one. */
  lemma {:induction false} CategoryFromTagsNone(tags: seq<string>)
    ensures CategoryFromTags(tags).None? <==> forall j :: 0 <= j < |tags| ==> !IsCategoryTag(tags[j])
    decreases |tags|
  {
    if tags != [] {
      CategoryFromTagsNone(tags[1..]);
      if !IsCategoryTag(tags[0]) {
        assert forall j :: 1 <= j < |tags| ==> tags[j] == tags[1..][j - 1];
      }
    }
  }

  /** A non-blank explicit category wins over any tags. */
  lemma ExplicitCategoryWins(record: QuoteRecord, otherTags: Option<seq<string>>)
    requires record.category.Some? && !Blank(record.category.value)
    ensures CategoryOf(record) == Some(Formatted(Trim(record.category.value)))
    ensures CategoryOf(record.(tags := otherTags)) == CategoryOf(record)
  {
  }

  /** `Tags: ["daily-wisdom", "Hope"]` gives "Hope": the slug is skipped. */
  lemma SluggedTagSkipped()
    ensures CategoryOf(QuoteRecord("q", "a", Some(["daily-wisdom", "Hope"]), None)) == Some("Hope")
  {
    var tags := ["daily-wisdom", "Hope"];
    TrimOfTrimmed(tags[0]);
    TrimOfTrimmed(tags[1]);
    assert tags[0][5] == '-';
    CategoryFromTagsFirstMatch(tags, 1);
    var r := Formatted("Hope");
    assert r[0] == 'H' && r[1] == 'o' && r[2] == 'p' && r[3] == 'e';
    assert r == "Hope";
  }

  /** `Tags: ["self-help"]` with no `Category` gives no category. */
  lemma OnlySluggedTagsGiveNone()
    ensures CategoryOf(QuoteRecord("q", "a", Some(["self-help"]), None)) == None
  {
  }

  /** `records.compactMap { $0.toQuote() }`, where record k is given id `ids(k)`. */
  function CompactMapToQuote(records: seq<QuoteRecord>, ids: nat -> string): (qs: seq<Quote>)
    ensures |qs| <= |records|
    ensures forall j :: 0 <= j < |qs| ==> IsNormalized(qs[j])
    decreases |records|
  {
    if records == [] then []
    else
      var n := |records| - 1;
      var front := CompactMapToQuote(records[..n], ids);
      match records[n].ToQuote(ids(n))
      case Some(q) => front + [q]
      case None => front
  }

  /** The positions of the records that survive normalisation, in increasing order. */
  function SurvivorIndices(records: seq<QuoteRecord>): (ks: seq<nat>)
    ensures forall j :: 0 <= j < |ks| ==> ks[j] < |records| && records[ks[j]].Usable()
    ensures forall j, k :: 0 <= j < k < |ks| ==> ks[j] < ks[k]
    ensures forall i :: 0 <= i < |records| && records[i].Usable() ==> i in ks
    decreases |records|
  {
    if records == [] then []
    else
      var n := |records| - 1;
      var front := SurvivorIndices(records[..n]);
      assert forall i :: 0 <= i < n ==> records[..n][i] == records[i];
      if records[n].Usable() then front + [n] else front
  }

  /** No index survives exactly when no record is usable. */
  lemma NoSurvivors(records: seq<QuoteRecord>)
    ensures SurvivorIndices(records) == [] <==> forall i :: 0 <= i < |records| ==> !records[i].Usable()
  {
  }

  /** The mapped corpus is exactly the surviving records, normalised, in their original order. */
  lemma {:induction false} CompactMapKeepsSurvivors(records: seq<QuoteRecord>, ids: nat -> string)
    ensures |CompactMapToQuote(records, ids)| == |SurvivorIndices(records)|
    ensures forall j :: 0 <= j < |SurvivorIndices(records)| ==>
      CompactMapToQuote(records, ids)[j] == records[SurvivorIndices(records)[j]].ToQuote(ids(SurvivorIndices(records)[j])).value
    decreases |records|
  {
    if records != [] {
      var n := |records| - 1;
      var front, ks := records[..n], SurvivorIndices(records[..n]);
      CompactMapKeepsSurvivors(front, ids);
      var qs, qsFront := CompactMapToQuote(records, ids), CompactMapToQuote(front, ids);
      forall j | 0 <= j < |ks|
        ensures qs[j] == records[ks[j]].ToQuote(ids(ks[j])).value
      {
        assert qs[j] == qsFront[j];
        assert front[ks[j]] == records[ks[j]];
      }
    }
  }

  /**
   * `decodeQuotes`, after JSON parsing: `parsed` is none when the data is not
   * an array of records. No surviving record gives none, not an empty list.
   */
  function DecodeQuotes(parsed: Option<seq<QuoteRecord>>, ids: nat -> string): (r: Option<seq<Quote>>)
    ensures r.None? <==> parsed.None? || forall i :: 0 <= i < |parsed.value| ==> !parsed.value[i].Usable()
    ensures r.Some? ==> 0 < |r.value| <= |parsed.value|
    ensures r.Some? ==> forall j :: 0 <= j < |r.value| ==> IsNormalized(r.value[j])
    ensures r.Some? ==>
      && |r.value| == |SurvivorIndices(parsed.value)|
      && forall j :: 0 <= j < |r.value| ==>
           r.value[j] == parsed.value[SurvivorIndices(parsed.value)[j]].ToQuote(ids(SurvivorIndices(parsed.value)[j])).value
  {
    match parsed
    case None => None
    case Some(records) =>
      var mapped := CompactMapToQuote(records, ids);
      CompactMapKeepsSurvivors(records, ids);
      NoSurvivors(records);
      if mapped == [] then None else Some(mapped)
  }

  /** A blank quote is dropped and a valid record beside it is kept alone. */
  lemma DecodeDropsBlankRecord(ids: nat -> string)
    ensures DecodeQuotes(Some([QuoteRecord("", "Anon", None, None), QuoteRecord("Be kind.", "Anon", None, None)]), ids)
      == Some([Quote(ids(1), "Be kind.", "Anon", None)])
  {
    var records := [QuoteRecord("", "Anon", None, None), QuoteRecord("Be kind.", "Anon", None, None)];
    TrimOfTrimmed("Anon");
    TrimOfTrimmed("Be kind.");
    assert records[0].ToQuote(ids(0)) == None;
    assert records[1].ToQuote(ids(1)) == Some(Quote(ids(1), "Be kind.", "Anon", None));
    assert records[..1] == [records[0]];
    assert records[..1][..0] == [];
    assert CompactMapToQuote(records[..1][..0], ids) == [];
    assert CompactMapToQuote(records[..1], ids) == [];
    assert CompactMapToQuote(records, ids) == [Quote(ids(1), "Be kind.", "Anon", None)];
  }

  /**
   * `loadQuotesFromBundle` with the reads abstracted: `asset` holds the records
   * of the `quotes` data asset and `file` those of `quotes.json`, each none when
   * the resource is missing or unreadable. The first source that decodes wins.
   */
  function LoadQuotesFromBundle(asset: Option<seq<QuoteRecord>>, file: Option<seq<QuoteRecord>>, ids: nat -> string)
    : (r: Option<seq<Quote>>)
    ensures DecodeQuotes(asset, ids).Some? ==> r == DecodeQuotes(asset, ids)
    ensures r.None? <==> DecodeQuotes(asset, ids).None? && DecodeQuotes(file, ids).None?
    ensures r.Some? ==> r == DecodeQuotes(asset, ids) || r == DecodeQuotes(file, ids)
  {
    match DecodeQuotes(asset, ids)
    case Some(quotes) => Some(quotes)
    case None => DecodeQuotes(file, ids)
  }

  /** The static `quotes` corpus: what the bundle loads, or the empty list. */
  function Quotes(asset: Option<seq<QuoteRecord>>, file: Option<seq<QuoteRecord>>, ids: nat -> string)
    : (qs: seq<Quote>)
    ensures qs == [] <==> LoadQuotesFromBundle(asset, file, ids).None?
    ensures LoadQuotesFromBundle(asset, file, ids).Some? ==> qs == LoadQuotesFromBundle(asset, file, ids).value
    ensures forall j :: 0 <= j < |qs| ==> IsNormalized(qs[j])
  {
    match LoadQuotesFromBundle(asset, file, ids)
    case Some(loaded) => if loaded != [] then loaded else []
    case None => []
  }

  // ---------------------------------------------------------------------------
  // Quote-of-day resolution
  // ---------------------------------------------------------------------------

  /** What the host application writes under "dailyQuoteOfToday". */
  datatype DailyQuotePayload = DailyQuotePayload(quote: Quote, dayOfYear: int, year: int)

  /**
   * A calendar day as the current calendar reports it: the ordinal of the day
   * within its year (none when the calendar gives none) and the year.
   */
  datatype CalendarDay = CalendarDay(ordinality: Option<nat>, year: int)

  /** A moment in time: its calendar day and the seconds since that day began. */
  datatype Date = Date(day: CalendarDay, secondOfDay: nat)

  /** `startOfDay(for:)`. */
  function StartOfDay(date: Date): (start: Date) {
    Date(date.day, 0)
  }

  /** The day ordinal of the start of the date's day, 0 when the calendar gives none. */
  function DayOfYear(date: Date): (d: nat)
    ensures date.day.ordinality.Some? ==> d == date.day.ordinality.value
    ensures date.day.ordinality.None? ==> d == 0
  {
    StartOfDay(date).day.ordinality.GetOr(0)
  }

  /** The calendar year of the start of the date's day. */
  function YearOf(date: Date): (y: int)
    ensures y == date.day.year
  {
    StartOfDay(date).day.year
  }

  /**
   * `loadStoredQuote`: `stored` is the payload, or none when the key is absent
   * or its data does not decode. Only a payload of the same day and year counts.
   */
  function LoadStoredQuote(stored: Option<DailyQuotePayload>, date: Date): (r: Option<Quote>)
    ensures r.Some? <==> stored.Some? && stored.value.dayOfYear == DayOfYear(date) && stored.value.year == YearOf(date)
    ensures r.Some? ==> r.value == stored.value.quote
  {
    match stored
    case None => None
    case Some(payload) =>
      if payload.dayOfYear == DayOfYear(date) && payload.year == YearOf(date) then Some(payload.quote) else None
  }

  /** The corpus position of a day: `dayOfYear % count`. */
  function CorpusIndex(dayOfYear: nat, count: nat): (i: nat)
    requires count > 0
    ensures i < count
  {
    dayOfYear % count
  }

  /** `quoteOfToday`: the matching payload's quote, else the day's corpus entry, else the placeholder. */
  function QuoteOfToday(stored: Option<DailyQuotePayload>, quotes: seq<Quote>, date: Date): (q: Quote)
    ensures LoadStoredQuote(stored, date).Some? ==> q == stored.value.quote
    ensures LoadStoredQuote(stored, date).None? && quotes == [] ==> q == Placeholder
    ensures LoadStoredQuote(stored, date).None? && quotes != [] ==>
      q in quotes && q == quotes[CorpusIndex(DayOfYear(date), |quotes|)]
  {
    match LoadStoredQuote(stored, date)
    case Some(storedQuote) => storedQuote
    case None =>
      if quotes == [] then Placeholder
      else quotes[CorpusIndex(DayOfYear(date), |quotes|)]
  }

  /** The time of day does not matter: two moments of the same day resolve alike. */
  lemma SameDaySameQuote(stored: Option<DailyQuotePayload>, quotes: seq<Quote>, d1: Date, d2: Date)
    requires d1.day == d2.day
    ensures QuoteOfToday(stored, quotes, d1) == QuoteOfToday(stored, quotes, d2)
  {
  }

  /** A payload of another day or year is ignored as if there were none. */
  lemma StalePayloadIgnored(payload: DailyQuotePayload, quotes: seq<Quote>, date: Date)
    requires payload.dayOfYear != DayOfYear(date) || payload.year != YearOf(date)
    ensures QuoteOfToday(Some(payload), quotes, date) == QuoteOfToday(None, quotes, date)
  {
  }

  /** Day ordinals a whole corpus length apart select the same entry. */
  lemma RotationPeriod(d: nat, count: nat)
    requires count > 0
    ensures CorpusIndex(d + count, count) == CorpusIndex(d, count)
  {
    var q, r := d / count, d % count;
    assert d + count == (q + 1) * count + r;
    ModUnique(d + count, count, q + 1, r);
  }

  /** With more than one entry, consecutive day ordinals select different entries. */
  lemma ConsecutiveDaysDiffer(d: nat, count: nat)
    requires count > 1
    ensures CorpusIndex(d + 1, count) != CorpusIndex(d, count)
    ensures CorpusIndex(d + 1, count) == (CorpusIndex(d, count) + 1) % count
  {
    var q, r := d / count, d % count;
    if r + 1 < count {
      assert d + 1 == q * count + (r + 1);
      ModUnique(d + 1, count, q, r + 1);
      ModUnique(r + 1, count, 0, r + 1);
    } else {
      assert d + 1 == (q + 1) * count + 0;
      ModUnique(d + 1, count, q + 1, 0);
      ModUnique(count, count, 1, 0);
    }
  }

  /** Euclidean remainder is determined by any quotient-remainder decomposition. */
  lemma ModUnique(d: int, n: int, q: int, r: int)
    requires n > 0 && 0 <= r < n && d == q * n + r
    ensures d % n == r
  {
    var q', r' := d / n, d % n;
    assert (q - q') * n == r' - r;
    if q > q' {
      MulAtLeast(q - q', n);
    } else if q < q' {
      MulAtLeast(q' - q, n);
    }
  }

  lemma MulAtLeast(k: int, n: int)
    requires k >= 1 && n > 0
    ensures k * n >= n
  {
  }

  /** Without a usable payload, dates whose ordinals are a corpus length apart show the same quote. */
  lemma QuoteRotation(stored: Option<DailyQuotePayload>, quotes: seq<Quote>, d1: Date, d2: Date)
    requires quotes != []
    requires LoadStoredQuote(stored, d1).None? && LoadStoredQuote(stored, d2).None?
    requires DayOfYear(d2) == DayOfYear(d1) + |quotes|
    ensures QuoteOfToday(stored, quotes, d2) == QuoteOfToday(stored, quotes, d1)
  {
    RotationPeriod(DayOfYear(d1), |quotes|);
  }

  /** Without a usable payload, the quote shown for the bundled corpus is always normalised. */
  lemma ResolvedQuoteIsNormalized(stored: Option<DailyQuotePayload>, asset: Option<seq<QuoteRecord>>,
                                  file: Option<seq<QuoteRecord>>, ids: nat -> string, date: Date)
    requires LoadStoredQuote(stored, date).None?
    ensures IsNormalized(QuoteOfToday(stored, Quotes(asset, file, ids), date))
  {
  }
}
