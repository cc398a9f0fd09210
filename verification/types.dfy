/** types.ts: the records the wizard passes around, and the callbacks a
    step component hands back to the application shell. */
module Types {
  import opened Js

  /** A selectable image: a preset, an upload or a generated garment.
      `isGenerated` is absent on presets and uploads. */
  datatype ImageAsset = ImageAsset(id: string, url: string, isGenerated: Option<bool>)

  /** The three wizard steps (numbered 1, 2, 3 in the source). */
  datatype Step = SelectPerson | SelectGarment | GenerateResult

  /** One completed try-on, newest first in the history list. */
  datatype HistoryEntry = HistoryEntry(
    id: string,
    personUrl: string,
    garmentUrl: string,
    resultUrl: string,
    timestamp: nat)

  /** A call a step component makes into its parent's handlers. */
  datatype Callback =
    | OnSelect(asset: ImageAsset)
    | OnAddCustomGarment(asset: ImageAsset)
    | OnResultGenerated(url: string)

  /** What a file input's change handler saw: no file chosen, or a file
      whose `FileReader` load event carried `result` (which may be missing
      or empty). */
  datatype Upload = NoFile | Loaded(result: Option<string>)
}
