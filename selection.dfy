/** The validator both multi-select prompts use (commit and diff). */
module Selection {

  /** inquire's `Validation`. */
  datatype Validation = Valid | Invalid(message: string)

  const NoSelectionMessage: string := "You must select at least one file"

  /** `validate_file_selection`, for any kind of listed item. */
  function ValidateFileSelection<T>(files: seq<T>): Validation {
    if |files| == 0 then Invalid(NoSelectionMessage) else Valid
  }

  /** A selection is refused exactly when it is empty, and always with the
      same message. */
  lemma ValidateFileSelectionIff<T>(files: seq<T>)
    ensures ValidateFileSelection(files) != Valid <==> files == []
    ensures ValidateFileSelection(files) != Valid ==> ValidateFileSelection(files) == Invalid("You must select at least one file")
  {
  }
}
