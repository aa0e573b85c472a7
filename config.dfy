/** `state.settings`: the built-in defaults and the way `loadState` lays the
    saved settings over them with an object spread. */
module Config {
  import opened Tasks

  datatype Settings = Settings(
    confirmDelete: bool,
    showCompleted: bool,
    defaultDueDate: string,
    animationSpeed: string)

  /** The settings object written into `state` at start-up. */
  const Defaults: Settings := Settings(true, true, "tomorrow", "normal")

  /** A parsed `premiumTasksSettings` object: each known key may or may not be present. */
  datatype SavedSettings = SavedSettings(
    confirmDelete: Option<bool>,
    showCompleted: Option<bool>,
    defaultDueDate: Option<string>,
    animationSpeed: Option<string>)

  const NothingSaved: SavedSettings := SavedSettings(None, None, None, None)

  function Pick<T>(saved: Option<T>, current: T): T {
    if saved.Some? then saved.value else current
  }

  /** `{ ...base, ...saved }`: every key present in `saved` takes the saved
      value, every other key keeps the value in `base`. */
  function Merge(base: Settings, saved: SavedSettings): (r: Settings)
    ensures saved.confirmDelete.Some? ==> r.confirmDelete == saved.confirmDelete.value
    ensures saved.confirmDelete.None? ==> r.confirmDelete == base.confirmDelete
    ensures saved.showCompleted.Some? ==> r.showCompleted == saved.showCompleted.value
    ensures saved.showCompleted.None? ==> r.showCompleted == base.showCompleted
    ensures saved.defaultDueDate.Some? ==> r.defaultDueDate == saved.defaultDueDate.value
    ensures saved.defaultDueDate.None? ==> r.defaultDueDate == base.defaultDueDate
    ensures saved.animationSpeed.Some? ==> r.animationSpeed == saved.animationSpeed.value
    ensures saved.animationSpeed.None? ==> r.animationSpeed == base.animationSpeed
  {
    Settings(
      Pick(saved.confirmDelete, base.confirmDelete),
      Pick(saved.showCompleted, base.showCompleted),
      Pick(saved.defaultDueDate, base.defaultDueDate),
      Pick(saved.animationSpeed, base.animationSpeed))
  }

  /** `{ ...first, ...second }` on two saved objects: keys of `second` win. */
  function Overlay(first: SavedSettings, second: SavedSettings): SavedSettings {
    SavedSettings(
      if second.confirmDelete.Some? then second.confirmDelete else first.confirmDelete,
      if second.showCompleted.Some? then second.showCompleted else first.showCompleted,
      if second.defaultDueDate.Some? then second.defaultDueDate else first.defaultDueDate,
      if second.animationSpeed.Some? then second.animationSpeed else first.animationSpeed)
  }

  /** `loadState`: the merge happens only when a non-empty saved value exists
      (`None` stands for a missing key or an empty string). */
  function Loaded(current: Settings, saved: Option<SavedSettings>): (r: Settings)
    ensures saved.None? ==> r == current
    ensures saved.Some? ==> r == Merge(current, saved.value)
  {
    if saved.Some? then Merge(current, saved.value) else current
  }

  /** An empty saved object leaves the settings as they are. */
  lemma MergeNothing(base: Settings)
    ensures Merge(base, NothingSaved) == base
  {
  }

  /** A saved object holding every key replaces the settings whatever they were. */
  lemma MergeComplete(base1: Settings, base2: Settings, saved: SavedSettings)
    requires saved.confirmDelete.Some? && saved.showCompleted.Some?
    requires saved.defaultDueDate.Some? && saved.animationSpeed.Some?
    ensures Merge(base1, saved) == Merge(base2, saved)
  {
  }

  /** Loading the same saved object twice is the same as loading it once. */
  lemma MergeIdempotent(base: Settings, saved: SavedSettings)
    ensures Merge(Merge(base, saved), saved) == Merge(base, saved)
  {
  }

  /** Two spreads in a row are one spread of the overlaid objects. */
  lemma MergeTwice(base: Settings, first: SavedSettings, second: SavedSettings)
    ensures Merge(Merge(base, first), second) == Merge(base, Overlay(first, second))
  {
  }
}
