/** Reading the appearance preference the host application shared. */
module AppearanceStore {
  import opened Wrappers
  import opened SharedModels

  /**
   * `currentSettings`: `stored` holds the `font` and `size` codes of the shared
   * value, or none when the key is absent or its data is not a settings object.
   * Anything that does not decode falls back to the default.
   */
  function CurrentSettings(stored: Option<(string, string)>): (a: AppearanceSettings)
    ensures stored.None? ==> a == DefaultSettings
    ensures stored.Some? && AppearanceSettings.Decode(stored.value.0, stored.value.1).None? ==> a == DefaultSettings
    ensures stored.Some? && AppearanceSettings.Decode(stored.value.0, stored.value.1).Some? ==>
      a.font.RawValue() == stored.value.0 && a.size.RawValue() == stored.value.1
  {
    match stored
    case None => DefaultSettings
    case Some((font, size)) => AppearanceSettings.Decode(font, size).GetOr(DefaultSettings)
  }
}
