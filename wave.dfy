/** What the external binary-wave decoder hands to the metadata code, and the
    typed values the parsed note holds. */
module Wave {
  import opened Wrappers
  import opened Codecs

  /** Python floats, kept abstract over a carrier type `F`:
      `parse` is `float(str)` (`None` where it raises `ValueError`);
      `isNaN` and `isInf` pick out the values on which `int(num)` raises
      `ValueError` and `OverflowError`; `trunc` is `int(num)` on the other values;
      `isIntegral` is the comparison `num == int(num)` on them. */
  datatype FloatOps<!F> = FloatOps(
    parse: string -> Option<F>,
    isNaN: F -> bool,
    isInf: F -> bool,
    isIntegral: F -> bool,
    trunc: F -> int)

  /** A parameter value: Python `int`, `float` or `str`. */
  datatype Value<F> = IntV(i: int) | FloatV(f: F) | TextV(s: string)

  /** `raw_ibw["note"]`: either already text or raw bytes. */
  datatype NoteBlob = TextNote(text: string) | BytesNote(bytes: seq<byte>)

  /** The decoded wave record: `wave_header` (its values modelled as `Value`s),
      `note` and `labels` (groups of byte-string channel names). The sample
      data `wData` is not part of this model. */
  datatype RawWave<F> = RawWave(
    waveHeader: map<string, Value<F>>,
    note: NoteBlob,
    labels: seq<seq<seq<byte>>>)
}
