/**
 Loading the font file into memory. The file system is a parameter: `None`
 for a file that cannot be opened, `Some(bytes)` for its contents, and a flag
 for whether the final read succeeds.
 */
module FontFiles {
  import opened Glyphs

  datatype Option<T> = None | Some(value: T)

  /** The whole font file held in memory. */
  datatype FontFile = FontFile(bufferSize: nat, buffer: seq<Byte>)

  /** Reads the font file; no font (a null pointer) for a file that cannot be opened,
      whose probed size is 0, or whose read fails. */
  function LoadFontFile(file: Option<seq<Byte>>, readSucceeds: bool): (r: Option<FontFile>)
    ensures r.Some? <==> file.Some? && |file.value| > 0 && readSucceeds
    ensures r.Some? ==> r.value.buffer == file.value && r.value.bufferSize == |r.value.buffer| > 0
  {
    if file.None? || |file.value| == 0 then None
    else if !readSucceeds then None
    else Some(FontFile(|file.value|, file.value))
  }
}
