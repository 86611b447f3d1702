# Daily quotation widget: quote-of-day resolution, in Dafny

This project models the logic of the daily quotation home-screen widget.

- **Quote-of-day resolver.** For a date, it returns one quote, chosen by a strict precedence:
  1. the quote the host application wrote to shared storage, if its `(dayOfYear, year)` key matches the date's;
  2. otherwise the corpus entry at `dayOfYear % count`;
  3. otherwise the fixed placeholder quote.
- **Corpus normaliser.** It turns the raw bundled records (`Quote`, `Author`, `Tags`, `Category`) into quotes:
  - text and author are trimmed;
  - records whose text or author is blank are dropped;
  - the category is the explicit one if present, otherwise the first tag that is not a slug;
  - survivors keep their original order, and "no survivors" is reported as none, not as an empty list.
- **Shared value types.** `Quote`, the placeholder, the `FontFamily` and `TextSize` enumerations with their raw codes, the font-size table and the default appearance.

Everything in the core is pure. The model therefore uses datatypes, functions and lemmas. There is one exception: the first-match `for` loop over the tags in `normalizedCategory`. It is modelled as a method with a loop, `QuoteRepository.NormalizedCategory`, proved equal to the recursive function `CategoryOf` that the rest of the model uses.

The modules are:

- `Wrappers`: `Option`, with `GetOr` for Swift's `??`.
- `FoundationText`: the two Foundation string operations the normaliser uses:
  - `trimmingCharacters(in: .whitespacesAndNewlines)`, as `Trim`;
  - `capitalized`, as `Capitalized`.
- `SharedModels`: `WidgetSharedModels.swift`.
- `QuoteRepository`: `WidgetQuoteRepository.swift`.
- `AppearanceStore`: the default fallback of `WidgetAppearanceStore.swift`.

The model's inputs stand in for things it does not compute:

- **Calendar.** A `Date` is its calendar day plus the seconds since that day began. The calendar day is the ordinality the current calendar reports (possibly none) and the year. `startOfDay` discards the seconds. So "same result at any time of day" holds by construction, and `SameDaySameQuote` states it.
- **Shared storage and JSON.** The shared payload is an `Option<DailyQuotePayload>`; none means the key is absent or its data does not decode. The parsed corpus records are an `Option<seq<QuoteRecord>>` per bundle resource.
- **Identifiers.** Fresh UUIDs are replaced by a function `ids: nat -> string`. Record `k` of a resource gets `ids(k)`. No property depends on the ids.

## Model

| member | source | states |
|---|---|---|
| `QuoteRepository.QuoteOfToday` | WidgetQuoteRepository.swift:24-37 | A matching payload's quote is returned unchanged, whatever the corpus holds and without re-validating it. With no usable payload: an empty corpus gives exactly the placeholder; otherwise the result is a member of the corpus, the entry at `dayOfYear % count`. |
| `QuoteRepository.LoadStoredQuote` | WidgetQuoteRepository.swift:39-56 | There is a stored quote exactly when a payload is present and both its `dayOfYear` and `year` equal the date's (the ordinal defaulting to 0). That quote is the payload's quote. |
| `QuoteRepository.CorpusIndex` | WidgetQuoteRepository.swift:34-35 | The index `dayOfYear % count` lies in `[0, count)` for a non-empty corpus. |
| `QuoteRepository.SameDaySameQuote` | WidgetQuoteRepository.swift:32-34 | Two moments of the same calendar day resolve to the same quote, whatever their time of day. |
| `QuoteRepository.StalePayloadIgnored` | WidgetQuoteRepository.swift:52-54 | A payload whose day or year differs from the date's gives the same result as no payload at all. |
| `QuoteRepository.RotationPeriod` | WidgetQuoteRepository.swift:35 | Day ordinals `d` and `d + count` select the same corpus index. |
| `QuoteRepository.ConsecutiveDaysDiffer` | WidgetQuoteRepository.swift:35 | With more than one entry, day `d + 1` selects the index after day `d`'s (cyclically), so it is a different index. |
| `QuoteRepository.QuoteRotation` | WidgetQuoteRepository.swift:31-36 | With no usable payload, two dates whose ordinals are a corpus length apart show the same quote. |
| `QuoteRepository.ResolvedQuoteIsNormalized` | WidgetQuoteRepository.swift:17-37 | With no usable payload, the quote resolved from the bundled corpus always has non-empty, trimmed text and author (placeholder included). |
| `QuoteRepository.Quotes` | WidgetQuoteRepository.swift:17-22 | When the bundle yields quotes, the corpus is exactly that loaded list. Otherwise it is empty, and it is empty only then. Every entry is normalised. |
| `QuoteRepository.LoadQuotesFromBundle` | WidgetQuoteRepository.swift:59-77 | The data asset wins when it decodes to some quotes. Otherwise the result is that of `quotes.json`. It is none only when neither source decodes. |
| `QuoteRepository.DecodeQuotes` | WidgetQuoteRepository.swift:79-85 | It returns none exactly when the data did not parse or no record is usable, never an empty list. Otherwise it returns exactly the usable records, normalised, in their original order: entry `j` is `toQuote` of the `j`-th usable record (per `SurvivorIndices`), so there are between 1 and `|records|` of them. |
| `QuoteRepository.CompactMapToQuote` | WidgetQuoteRepository.swift:83 | The output is never longer than the input, and every output quote is normalised. |
| `QuoteRepository.SurvivorIndices` | WidgetQuoteRepository.swift:83 | This is the reference for what `compactMap` keeps. It lists the positions of exactly the usable records, strictly increasing. |
| `QuoteRepository.CompactMapKeepsSurvivors` | WidgetQuoteRepository.swift:83 | Output `j` is the normalisation of the `j`-th surviving record, and the lengths agree. So exactly the usable records are kept, in their original order. |
| `QuoteRepository.NoSurvivors` | WidgetQuoteRepository.swift:84 | No record survives exactly when every record is blank in its quote or its author. |
| `QuoteRepository.DecodeDropsBlankRecord` | WidgetQuoteRepository.swift:83-84 | A record with an empty quote next to a valid one yields a corpus holding only the valid one. |
| `QuoteRepository.QuoteRecord.ToQuote` | WidgetQuoteRepository.swift:100-112 | It gives none exactly when the quote or the author is blank. Otherwise: the given id; text and author equal to the trimmed inputs (non-empty, no surrounding whitespace); the derived category. |
| `QuoteRepository.Cleaned` | WidgetQuoteRepository.swift:129-136 | It gives none exactly for a missing or blank value. Otherwise it gives the trimmed value, which is non-empty. |
| `QuoteRepository.CategoryOf` | WidgetQuoteRepository.swift:115-127 | A derived category is non-empty and has no surrounding whitespace. |
| `QuoteRepository.NormalizedCategory` | WidgetQuoteRepository.swift:115-127 | The loop over the tags, with its `continue` and early `return`, computes exactly `CategoryOf`. |
| `QuoteRepository.Formatted` | WidgetQuoteRepository.swift:138-140 | Formatting keeps the length, keeps a non-empty trimmed category non-empty and trimmed, and neither adds nor removes `-` or `_`. `CapitalizeFrom` gives the character-level rule. |
| `QuoteRepository.DayOfYear` | WidgetQuoteRepository.swift:34 | The ordinal the calendar reports for the start of the day, or 0 when it reports none (`?? 0`). |
| `QuoteRepository.YearOf` | WidgetQuoteRepository.swift:50 | The calendar year of the start of the date's day. |
| `QuoteRepository.CategoryFromTags` | WidgetQuoteRepository.swift:120-126 | A category taken from tags is non-empty, trimmed, and free of `-` and `_`. |
| `QuoteRepository.CategoryFromTagsFirstMatch` | WidgetQuoteRepository.swift:121-125 | The first tag that is non-blank and has neither `-` nor `_` decides the category (trimmed, then formatted), whatever tags follow it. |
| `QuoteRepository.CategoryFromTagsNone` | WidgetQuoteRepository.swift:120-126 | The tags give no category exactly when no tag qualifies (this covers an empty tag list). |
| `QuoteRepository.ExplicitCategoryWins` | WidgetQuoteRepository.swift:116-118 | A non-blank explicit category gives its trimmed, formatted value, and replacing the tags does not change the result. |
| `QuoteRepository.SluggedTagSkipped` | WidgetQuoteRepository.swift:121-124 | Tags `["daily-wisdom", "Hope"]` with no category give `"Hope"`. |
| `QuoteRepository.OnlySluggedTagsGiveNone` | WidgetQuoteRepository.swift:121-126 | Tags `["self-help"]` with no category give none. |
| `FoundationText.Trim` | WidgetQuoteRepository.swift:101-102 | The result is empty exactly when the input is all whitespace. Otherwise it neither starts nor ends with whitespace. |
| `FoundationText.TrimIsInnerSlice` | WidgetQuoteRepository.swift:130 | The trimmed string is the contiguous slice of the input between a blank prefix and a blank suffix. |
| `FoundationText.TrimIdempotent` | WidgetQuoteRepository.swift:130 | Trimming twice is trimming once. |
| `FoundationText.CapitalizeFrom` | WidgetQuoteRepository.swift:139 | The left-to-right scan upper-cases a character that starts a word (at the front, or after whitespace) and lower-cases every other one. |
| `FoundationText.Capitalized` | WidgetQuoteRepository.swift:139 | `capitalized` keeps the length. `CapitalizeFrom` gives the character-level rule, and `CapitalizedKeepsNonLetters` and `CapitalizedIdempotent` give its further facts. |
| `FoundationText.CapitalizedKeepsNonLetters` | WidgetQuoteRepository.swift:138-140 | Formatting keeps the length and keeps whitespace, `-` and `_` exactly where they were. |
| `FoundationText.CapitalizedKeepsTrimmed` | WidgetQuoteRepository.swift:138-140 | Formatting a non-empty trimmed string gives a non-empty trimmed string. |
| `FoundationText.CapitalizedIdempotent` | WidgetQuoteRepository.swift:139 | Formatting twice is formatting once. |
| `SharedModels.NewQuote` | WidgetSharedModels.swift:17-22 | The initialiser stores id, text, author and category unchanged. The category defaults to none. |
| `SharedModels.PlaceholderFacts` | WidgetSharedModels.swift:25-31 | The placeholder has id `"widget-placeholder"`, category `"Inspiration"`, and non-empty text and author. |
| `SharedModels.FontFamily.FromRawValue` | WidgetSharedModels.swift:34-38 | Parsing a raw code gives the case with that code, and gives none only when no case has it. |
| `SharedModels.FontFamily.RawValue` | WidgetSharedModels.swift:34-37 | The raw codes are `"serif"`, `"sans"` and `"mono"`. `FontFamilyCodes` proves they are distinct and round-trip. |
| `SharedModels.FontFamily.DisplayName` | WidgetSharedModels.swift:39-45 | The display names are `"Classic"`, `"Modern"` and `"Type"`. `FontFamilyCodes` proves that no two cases share one. |
| `SharedModels.FontFamilyCodes` | WidgetSharedModels.swift:34-45 | Raw codes round-trip. Raw codes and display names (`Classic`, `Modern`, `Type`) are pairwise distinct. Every case is in `allCases`. |
| `SharedModels.TextSize.FromRawValue` | WidgetSharedModels.swift:59-62 | Parsing a raw code gives the case with that code, and gives none only when no case has it. |
| `SharedModels.TextSize.RawValue` | WidgetSharedModels.swift:59-62 | The raw codes are `"sm"`, `"md"` and `"lg"`. `TextSizeCodes` proves they are distinct and round-trip. |
| `SharedModels.TextSizeCodes` | WidgetSharedModels.swift:59-62 | The raw codes `sm`, `md`, `lg` round-trip and are pairwise distinct. Every case is in `allCases`. |
| `SharedModels.TextSize.FontSize` | WidgetSharedModels.swift:64-70 | Every size lies between 26 and 40 points. |
| `SharedModels.FontSizeIncreasing` | WidgetSharedModels.swift:64-70 | The font size strictly increases along small, medium, large (26 < 30 < 40). |
| `SharedModels.AppearanceSettings.Decode` | WidgetSharedModels.swift:73-77 | Decoding the two stored codes fails exactly when either code names no case. Otherwise the decoded settings carry those codes. |
| `SharedModels.AppearanceRoundTrip` | WidgetSharedModels.swift:73-77 | Settings decode from their own codes. The default is serif (`"serif"`), medium (`"md"`). |
| `AppearanceStore.CurrentSettings` | WidgetAppearanceStore.swift:6-14 | Absent or undecodable shared settings give the default. Decodable ones are returned with the stored codes. |

## Left out

- JSON decoding of the payload, the corpus records and the appearance settings. Its results are inputs. "Absent" and "undecodable" are both none, as the source treats them alike.
- `UserDefaults` and the app-group suite (`WidgetSharedDefaults`). These are storage access; the stored values are inputs.
- Reading the `quotes` data asset and the `quotes.json` file. These are I/O; each source is its parsed records, or none when missing or unreadable. The `canImport(UIKit)` guard is the asset source being none.
- `Calendar.current`: `startOfDay`, `ordinality` and `component(.year)` are foreign calls. Their results are part of the `Date` input. The ordinality is a `nat` because the calendar reports a day count of at least 1, so Swift's truncating `%` and Dafny's `%` agree.
- `UUID().uuidString`: this is nondeterministic, so ids come from the `ids` parameter.
- `FoundationText.Trim`: trims by Unicode scalar (the White_Space code points), not by extended grapheme cluster.
- `QuoteRepository.CategoryFromTags`: the `-`/`_` slug test looks at single Unicode scalars. Swift's `contains("-")` compares whole Characters (extended grapheme clusters), so a hyphen followed by a combining mark counts as a slug here but not in the source. `IsCategoryTag` and `NormalizedCategory` share this approximation.
- `FoundationText.Capitalized`: changes case for ASCII letters only, and starts words only after whitespace. Foundation's locale-aware case mapping and word breaking are not modelled.
- `fontDesign`, `quoteFont` and everything in `DailyQuotationWidget.swift`, `AppIntent.swift` and `DailyQuotationWidgetBundle.swift`. These are SwiftUI and WidgetKit presentation, with `CGFloat` arithmetic.
- `TextSize.FontSize`: the `CGFloat` sizes are modelled as natural numbers. All three are whole numbers.
- Process-wide lazy caching of the corpus: the corpus is a value computed from its inputs.
