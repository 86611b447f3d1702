/** The value types shared between the widget and its host application. */
module SharedModels {
  import opened Wrappers

  /** One quotation. `category` is optional; the others are plain strings. */
  datatype Quote = Quote(id: string, text: string, author: string, category: Option<string>)

  /** `Quote.init`: stores its arguments unchanged; the category defaults to none. */
  function NewQuote(id: string, text: string, author: string, category: Option<string> := None): (q: Quote)
    ensures q.id == id && q.text == text && q.author == author && q.category == category
  {
    Quote(id, text, author, category)
  }

  /** The quote shown when nothing else is available. Its id is fixed. */
  const Placeholder: Quote :=
    NewQuote("widget-placeholder", "Every moment is a fresh beginning.", "T.S. Eliot", Some("Inspiration"))

  /** The placeholder's fixed id and category, and its non-empty text and author. */
  lemma PlaceholderFacts()
    ensures Placeholder.id == "widget-placeholder"
    ensures Placeholder.category == Some("Inspiration")
    ensures Placeholder.text != [] && Placeholder.author != []
  {
  }

  /** The typeface family a quote is drawn in. */
  datatype FontFamily = Serif | Sans | Mono {

    /** The raw string code each case is stored under. */
    function RawValue(): (raw: string)
      ensures raw == "serif" || raw == "sans" || raw == "mono"
    {
      match this
      case Serif => "serif"
      case Sans => "sans"
      case Mono => "mono"
    }

    /** `init?(rawValue:)`: the case whose raw code is `raw`, if any. */
    static function FromRawValue(raw: string): (f: Option<FontFamily>)
      ensures f.Some? ==> f.value.RawValue() == raw
      ensures f.None? ==> forall g: FontFamily :: g.RawValue() != raw
    {
      if raw == "serif" then Some(Serif)
      else if raw == "sans" then Some(Sans)
      else if raw == "mono" then Some(Mono)
      else None
    }

    /** The name shown to the user. */
    function DisplayName(): (name: string)
      ensures name == "Classic" || name == "Modern" || name == "Type"
    {
      match this
      case Serif => "Classic"
      case Sans => "Modern"
      case Mono => "Type"
    }
  }

  /** `FontFamily.allCases`, in declaration order. */
  const AllFontFamilies: seq<FontFamily> := [Serif, Sans, Mono]

  /** Every raw code round-trips, and no two cases share a raw code or a display name. */
  lemma FontFamilyCodes(f: FontFamily, g: FontFamily)
    ensures FontFamily.FromRawValue(f.RawValue()) == Some(f)
    ensures f.RawValue() == g.RawValue() ==> f == g
    ensures f.DisplayName() == g.DisplayName() ==> f == g
    ensures f in AllFontFamilies
  {
  }

  /** The text size of a quote. */
  datatype TextSize = Small | Medium | Large {

    /** The raw string code each case is stored under. */
    function RawValue(): (raw: string)
      ensures raw == "sm" || raw == "md" || raw == "lg"
    {
      match this
      case Small => "sm"
      case Medium => "md"
      case Large => "lg"
    }

    /** `init?(rawValue:)`: the case whose raw code is `raw`, if any. */
    static function FromRawValue(raw: string): (t: Option<TextSize>)
      ensures t.Some? ==> t.value.RawValue() == raw
      ensures t.None? ==> forall u: TextSize :: u.RawValue() != raw
    {
      if raw == "sm" then Some(Small)
      else if raw == "md" then Some(Medium)
      else if raw == "lg" then Some(Large)
      else None
    }

    /** The point size of the quote text. */
    function FontSize(): (points: nat)
      ensures 26 <= points <= 40
    {
      match this
      case Small => 26
      case Medium => 30
      case Large => 40
    }
  }

  /** `TextSize.allCases`, in declaration order. */
  const AllTextSizes: seq<TextSize> := [Small, Medium, Large]

  /** Every raw code round-trips and no two cases share one. */
  lemma TextSizeCodes(t: TextSize, u: TextSize)
    ensures TextSize.FromRawValue(t.RawValue()) == Some(t)
    ensures t.RawValue() == u.RawValue() ==> t == u
    ensures t in AllTextSizes
  {
  }

  /** The font size grows strictly along the declared order small, medium, large. */
  lemma FontSizeIncreasing(i: nat, j: nat)
    requires i < j < |AllTextSizes|
    ensures AllTextSizes[i].FontSize() < AllTextSizes[j].FontSize()
  {
  }

  /** The user's appearance preference. */
  datatype AppearanceSettings = AppearanceSettings(font: FontFamily, size: TextSize) {

    /**
     * The synthesised `Decodable` conformance on the two stored raw codes:
     * it fails when either code names no case.
     */
    static function Decode(font: string, size: string): (a: Option<AppearanceSettings>)
      ensures a.Some? ==> a.value.font.RawValue() == font && a.value.size.RawValue() == size
      ensures a.None? <==> FontFamily.FromRawValue(font).None? || TextSize.FromRawValue(size).None?
    {
      match (FontFamily.FromRawValue(font), TextSize.FromRawValue(size))
      case (Some(f), Some(s)) => Some(AppearanceSettings(f, s))
      case _ => None
    }
  }

  /** `AppearanceSettings.default`. */
  const DefaultSettings: AppearanceSettings := AppearanceSettings(Serif, Medium)

  /** Settings stored as their raw codes decode back to themselves; the default is serif, medium. */
  lemma AppearanceRoundTrip(a: AppearanceSettings)
    ensures AppearanceSettings.Decode(a.font.RawValue(), a.size.RawValue()) == Some(a)
    ensures DefaultSettings.font.RawValue() == "serif" && DefaultSettings.size.RawValue() == "md"
  {
  }
}
