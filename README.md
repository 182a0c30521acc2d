# pyafmreader: Asylum Research metadata and file dispatch, in Dafny

pyafmreader loads atomic force microscopy files from several vendors into one
universal object. This project models two parts of it:

- the metadata layer of its Asylum Research (IBW) loader;
- the suffix-based dispatch of its `loadfile` entry point.

All of this logic runs on strings, lists and dictionaries that are already in
memory, so it is modelled on values with no I/O.

- **`read_note`** parses the wave note into a parameter dictionary. The model is
  module `Note`, method `Note.ReadNote`.
  - A byte note is decoded with the caller's codec. When that fails it falls
    back to ISO-8859-1, which accepts every byte sequence.
  - Trailing carriage returns are stripped, and the text is cut at every
    remaining carriage return.
  - Only lines with exactly one colon become entries, with both sides
    whitespace-stripped.
  - Each value is stored as an `int` when it is a whole number, as a `float`
    when it is another number (infinite ones included), and as the text when
    it is not a number or is NaN.
  - A later line overwrites an earlier one with the same key.
  - Finally `creationDate` and `modDate` are copied from the wave header when
    the header has them.
  - The method is a loop over the lines and a loop over the two date keys. It
    is proved equal to `Note.NoteParams`, and the lemmas characterise what that
    function holds.
- **`get_chan_labels`** builds the channel names and their default units. The
  model is module `ChannelLabels`, method `ChannelLabels.GetChanLabels`.
  - It flattens the label groups and decodes every entry as UTF-8.
  - It removes empty names with `list.remove` while a `for` loop iterates over
    the same list. That loop is modelled step by step: a live list plus the
    iterator's position. It is proved equal to a closed form,
    `ChannelLabels.SurvivingLabels`: each empty slot the iterator lands on
    removes the first remaining empty string and makes the iterator skip the
    next original element. From that closed form it is proved that:
    - non-empty names all survive, in order;
    - every empty name goes exactly when no two empty names are adjacent;
    - `['', '', 'X']` ends as `['', 'X']`.
  - It assigns a unit by a first-match rule: `Phase…` gets `deg`, `Current…`
    gets `A`, "volt" in any case or `In0…BPk2` gets `V`, "time" in any case gets
    `s`, and anything else gets `m`.
- **`get_force_curve_segments`** turns the note's comma-separated `Indexes` and
  `Direction` parameters into a dictionary of segment spans. The model is
  module `Segments`, method `Segments.ForceCurveSegments`.
  - The dictionary starts from four keys holding `(None, None)`.
  - Each boundary `i ≥ 1` writes `(Indexes[i-1], Indexes[i])` under the type of
    `Direction[i]`. A dwell becomes "towards" or "away" according to the
    previous direction, and otherwise uses the non-canonical `"dwell"` key. A
    `NaN` direction writes under a NaN key.
  - Every way the function raises is a `SegError`: a missing parameter, a
    parameter that is not text, an index that is not an integer, an unknown
    direction token, or too few directions.
- **`loadfile`** and the extension tables: modules `Loader` and `Constants`.
  - The suffix is computed as by POSIX `os.path.splitext`.
  - The suffix is tested against the JPK tuple, then the Nanoscope tuple, then
    the UFF table, then the Asylum Research table.
  - `ufffiles = ('.uff')` and `ar_exts = (".ibw")` are strings, not one-element
    tuples, so those two tests are substring tests. It is proved that:
    - a path with no extension, or with `.`, `.u` or `.uf`, goes to the UFF
      text loader;
    - `.i` and `.ib` go to the Asylum Research loader.

Where the code differs from a plain reading of its documentation, the model
follows the code:

- A label with both "volt" and "time" in it, such as `DeflVoltsTime`, gets `V`,
  because the volt test comes first (`ChannelLabels.UnitOfVoltsTime`).
- When the wave header has no `creationDate` or `modDate`, a note line with that
  key stays in the result (`Note.NoteParamsEntry`).
- The segment docstring names a `dwell_toward` key, but the key actually written
  is `dwell_towards` (`Segments.DwellTowards`).

Floats, UTF-8 decoding and `int(str)` are parameters of the model:

- `Wave.FloatOps` stands for `float(str)` and for the NaN, infinity, integrality
  and truncation behaviour of `int(num)`.
- A `Codecs.Decoder` stands for a byte-string decoder.
- A `parseInt` function stands for `int(str)`.

## Model

| member | source | states |
|---|---|---|
| Codecs.Latin1RoundTrip | pyafmreader/ar/get_metadata.py:26 | ISO-8859-1 decoding accepts every byte sequence, and encoding its text gives back the same bytes |
| Text.JoinSplit | pyafmreader/ar/get_metadata.py:27-28 | joining the pieces of `split(sep)` with `sep` gives back the original string |
| Text.SplitJoin | pyafmreader/ar/get_metadata.py:28 | splitting a `sep`-join of `sep`-free pieces gives back exactly those pieces |
| Text.Strip | pyafmreader/ar/get_metadata.py:33 | the stripped string is the input minus whitespace prefix and suffix, and neither of its ends is whitespace |
| Note.DecodeNote | pyafmreader/ar/get_metadata.py:21-26 | a text note is kept. A byte note decodes with the codec when it can. Otherwise the fallback text re-encodes under ISO-8859-1 to the original bytes, so no information is lost and nothing raises |
| Note.NoteLines | pyafmreader/ar/get_metadata.py:27-28 | there is at least one line and none holds a carriage return. The lines joined with `\r` are the decoded note minus its trailing carriage returns |
| Note.LineEntry | pyafmreader/ar/get_metadata.py:31-33 | a line yields an entry if and only if it has exactly one colon |
| Note.LineEntryAtColon | pyafmreader/ar/get_metadata.py:31-33 | the entry is the whitespace-stripped text before and after that colon |
| Note.Coerce | pyafmreader/ar/get_metadata.py:34-43 | the value is text exactly when the text does not parse as a float or parses to NaN, and then it is the text itself. It is an integer exactly when the float is finite and integral, and then it is that integer. Otherwise it is the parsed float, infinity included |
| Note.StoreValue | pyafmreader/ar/get_metadata.py:34-43 | the try/except sequence as written (store the float, narrow it, fall back to text) stores exactly the `Coerce` value under the key and changes nothing else |
| Note.LastLineWins | pyafmreader/ar/get_metadata.py:30-43 | a key is in the line map if and only if some line yields it. Its value is the coercion of the last such line's value |
| Note.CopyKeys | pyafmreader/ar/get_metadata.py:45-51 | after copying, a key is present if and only if it was present before or is a date key in the header. Header values win for those keys and every other value is unchanged |
| Note.ReadNote | pyafmreader/ar/get_metadata.py:21-53 | the two loops build exactly `NoteParams`: the line map, then the header dates copied in |
| Note.NoteParamsEntry | pyafmreader/ar/get_metadata.py:21-53 | a header date wins. Any other key is present if and only if some note line yields it, and it holds the last such line's coerced value |
| ChannelLabels.FlattenMembers | pyafmreader/ar/get_metadata.py:72-76 | a name is in the flattened list if and only if it is in one of the groups |
| ChannelLabels.FlattenLabels | pyafmreader/ar/get_metadata.py:72-76 | the `+=` loop, which skips empty groups, yields the concatenation of all groups in order |
| ChannelLabels.DecodeAll | pyafmreader/ar/get_metadata.py:77 | decoding succeeds if and only if every entry decodes, and then gives one string per entry. A failure names an entry that does not decode |
| ChannelLabels.RemoveEmptyLabels | pyafmreader/ar/get_metadata.py:78-80 | the remove-while-iterating loop, with Python's list-iterator index, yields exactly `SurvivingLabels` of its input |
| ChannelLabels.StepPastEmpty | pyafmreader/ar/get_metadata.py:79-80 | when the iterator sits on an empty slot, `remove('')` takes out the first remaining empty string and shortens the list by one |
| ChannelLabels.DropPreservesNonEmpty | pyafmreader/ar/get_metadata.py:78-80 | dropping leading empty strings keeps the non-empty names in order and adds nothing |
| ChannelLabels.SurvivingKeepsLabels | pyafmreader/ar/get_metadata.py:78-80 | the loop's result keeps every non-empty name in order and is a sub-multiset of its input |
| ChannelLabels.RemovalsCount | pyafmreader/ar/get_metadata.py:78-80 | the loop removes at most as many empty strings as there are. It removes all of them if and only if no two are adjacent |
| ChannelLabels.AllEmptiesRemovedIff | pyafmreader/ar/get_metadata.py:78-80 | no empty name survives if and only if the input has no two adjacent empty names |
| ChannelLabels.AdjacentEmptySurvives | pyafmreader/ar/get_metadata.py:78-80 | `['', '', 'X']` becomes `['', 'X']` |
| ChannelLabels.DefaultUnit | pyafmreader/ar/get_metadata.py:92-101 | the unit is one of deg, A, V, s or m. It is deg exactly for `Phase…` names. `In0…BPk2` get V. A name gets m only when it matches no volt and no time rule |
| ChannelLabels.VoltBeforeTime | pyafmreader/ar/get_metadata.py:96-99 | a name that is neither `Phase…` nor `Current…` and contains both "volt" and "time" gets V |
| ChannelLabels.UnitExamples | pyafmreader/ar/get_metadata.py:92-97 | `Phase2Amp` gets deg, `Current1` gets A and `In0` gets V |
| ChannelLabels.UnitOfVoltsTime | pyafmreader/ar/get_metadata.py:96-99 | `DeflVoltsTime` gets V |
| ChannelLabels.UnitOfZSensor | pyafmreader/ar/get_metadata.py:100-101 | `ZSensr` gets m |
| ChannelLabels.AssignUnits | pyafmreader/ar/get_metadata.py:82-101 | the loop leaves the labels unchanged and appends exactly one unit per label, the `DefaultUnit` of that label |
| ChannelLabels.GetChanLabels | pyafmreader/ar/get_metadata.py:55-103 | the result is `Channels`: flatten, decode, remove, assign units, or the entry that failed to decode. Labels and units have equal length. The codec argument has no effect |
| Segments.DirectionType | pyafmreader/ar/get_metadata.py:123-128 | a token has a type if and only if it is exactly `1`, `-1`, `0` or `NaN` |
| Segments.SegmentType | pyafmreader/ar/get_metadata.py:143-149 | for each key, the condition on the current and previous direction tokens under which a boundary is written to that key, both directions |
| Segments.FailureIsFinal | pyafmreader/ar/get_metadata.py:136-151 | once the loop has raised, the outcome no longer changes |
| Segments.ForceCurveSegments | pyafmreader/ar/get_metadata.py:130-153 | the indexed loop over the boundaries yields exactly `SegmentsUpTo` over all indexes |
| Segments.SegmentsSucceedIff | pyafmreader/ar/get_metadata.py:136-151 | the loop succeeds if and only if every boundary `i ≥ 1` has a direction token of a known type |
| Segments.TooFewDirections | pyafmreader/ar/get_metadata.py:143 | with fewer directions than indexes, and all present ones valid, the loop fails at the first missing position |
| Segments.LastWriteWins | pyafmreader/ar/get_metadata.py:130-151 | on success a key is present if and only if it is one of the four initial keys or some boundary wrote it. Its value is the span of the last boundary that wrote it, or `(None, None)` |
| Segments.ExtendDwellRetract | pyafmreader/ar/get_metadata.py:136-151 | directions `NaN,1,0,-1` over `0,100,250,400` give ext (0,100), dwell_towards (100,250), ret (250,400) and dwell_away unset |
| Segments.RetractThenDwell | pyafmreader/ar/get_metadata.py:136-151 | a dwell after a retraction is written to dwell_away |
| Segments.DwellAfterNaN | pyafmreader/ar/get_metadata.py:136-151 | a dwell after `NaN` is written under the non-canonical dwell key |
| Segments.TextParam | pyafmreader/ar/get_metadata.py:121-122 | reading a parameter succeeds if and only if it is present and text. A missing one is a `KeyError` |
| Segments.ParseIndexes | pyafmreader/ar/get_metadata.py:121 | the conversion succeeds if and only if every token parses as an integer, and then gives one integer per token. A failure names a bad token |
| Segments.NoteSegmentsErrors | pyafmreader/ar/get_metadata.py:121-135 | `Indexes` is read and checked before `Direction`. A success always holds the four initial keys |
| Segments.GetForceCurveSegments | pyafmreader/ar/get_metadata.py:105-153 | the whole function equals `NoteSegments`: read and parse the indexes, read the directions, run the loop |
| Constants.SuffixInStringTable | pyafmreader/constants.py:6-7 | for a file suffix and a string table whose only dot is its first character, `in` holds if and only if the suffix is a prefix of the table |
| Constants.UffFilesMembers | pyafmreader/constants.py:6 | a file suffix is `in ufffiles` if and only if it is one of `''`, `.`, `.u`, `.uf` or `.uff` |
| Constants.ArExtsMembers | pyafmreader/constants.py:7 | a file suffix is `in ar_exts` if and only if it is one of `''`, `.`, `.i`, `.ib` or `.ibw` |
| Loader.SplitExt | pyafmreader/pyafmreader.py:29 | root plus extension is the path. The extension is empty, or starts with a dot and has no further dot and no slash |
| Loader.SuffixIff | pyafmreader/pyafmreader.py:29 | the extension is non-empty if and only if the final component has a dot with a non-dot character before it, so leading dots do not count |
| Loader.SuffixOfFileName | pyafmreader/pyafmreader.py:29 | for a plain file name not starting with a dot, the extension runs from its last dot |
| Loader.SuffixNonEmpty | pyafmreader/pyafmreader.py:29 | the extension is non-empty if and only if some character strictly between the last slash and the last dot is not a dot |
| Loader.NoDotNoSuffix | pyafmreader/pyafmreader.py:29 | a path without a dot has an empty extension |
| Loader.DispatchTuples | pyafmreader/pyafmreader.py:33-37 | the chain picks the JPK loader, passing the suffix on, if and only if the suffix equals one of the three JPK entries. It picks Nanoscope if and only if the suffix is `.spm` or `.pfc` |
| Loader.DispatchStrings | pyafmreader/pyafmreader.py:39-43 | for a file suffix, the chain picks the UFF text loader if and only if the suffix is `''`, `.`, `.u`, `.uf` or `.uff`. It picks Asylum Research if and only if the suffix is `.i`, `.ib` or `.ibw` |
| Loader.LoadTargetBySuffix | pyafmreader/pyafmreader.py:33-43 | the JPK loader is used, with the suffix, if and only if the suffix is one of its three. Nanoscope is used if and only if it is `.spm` or `.pfc`. UFF text is used if and only if it is `''`, `.`, `.u`, `.uf` or `.uff`. Asylum Research is used if and only if it is `.i`, `.ib` or `.ibw` |
| Loader.IbwPathExample | pyafmreader/pyafmreader.py:42-43 | `curve.ibw` goes to the Asylum Research loader |
| Loader.BarePathExample | pyafmreader/pyafmreader.py:39-40 | `run/curve`, which has no extension, goes to the UFF text loader |
| Loader.JpkPathExample | pyafmreader/pyafmreader.py:33-34 | `map.jpk-force-map` goes to the JPK loader with suffix `.jpk-force-map` |
| Loader.TextPathExample | pyafmreader/pyafmreader.py:31-45 | `scan.txt` reaches no loader, so the empty UFF object is returned |
| Loader.IbwExtensionCheck | pyafmreader/ar/load_ibw_forcecurve.py:32 | the Asylum Research loader's extension assertion accepts exactly the suffixes `''`, `.`, `.i`, `.ib` and `.ibw` |

## Left out

- IEEE floating point is not modelled. `float(str)`, NaN, infinity, integrality and `int(num)` are the abstract operations of `Wave.FloatOps`, so no particular float value is checked.
- UTF-8 decoding is not modelled. It is an abstract partial decoder. Only ISO-8859-1 is spelled out, as the total byte-to-code-point map.
- `int(str)` on index tokens is the `parseInt` parameter. Python's tolerance of surrounding whitespace and underscores belongs to that parameter.
- `str.lower()` is modelled on ASCII letters only (`Text.Lower`). Non-ASCII case mappings are not part of this model.
- `os.path.splitext` is modelled with POSIX separators only. The Windows variant with `\` and drive letters is not part of this model.
- `loadfile` does not model the loaders it calls (`loadJPKfile`, `loadNANOSCfile`, `loadUFFtxt`, `load_ibw_fc`) or the `UFF` class. They appear only as the tags of `Loader.Target`.
- `pyafmreader/ar/load_ibw_forcecurve.py` is not modelled, beyond its suffix assertion. It does file I/O and calls an external wave reader. The check that the `wData` width equals the label count is also left out, because it needs that external reader.
- The wave's sample data and numpy array shapes are not part of this model. `np.nan` as a dictionary key is the `NaNKey` tag.
- The constants at pyafmreader/constants.py:10-23 are not modelled, because no modelled code uses them.
- Wave header values are `Wave.Value`s. Their exact Python types, which come from the external reader, are not modelled.
- ChannelLabels.GetChanLabels: the `codec` argument is accepted and ignored. The `bytes` branch that would use it cannot be taken, because the labels are already strings.
- Exceptions are modelled as `Failure` values: `SegError` for segments, and the failing entry for label decoding. The Python exception's type and traceback are not modelled.
