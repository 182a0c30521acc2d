/** `read_note`: the wave note parsed into a parameter map, best effort. */
module Note {
  import opened Wrappers
  import opened Text
  import opened Codecs
  import opened Wave

  /** The note as text: text is taken as it is; bytes are decoded with `codec`,
      and when that fails with ISO-8859-1, which accepts every byte sequence, so
      decoding never fails and the fallback text still holds every byte. */
  function DecodeNote(note: NoteBlob, codec: Decoder): (text: string)
    ensures note.TextNote? ==> text == note.text
    ensures note.BytesNote? && codec(note.bytes).Some? ==> text == codec(note.bytes).value
    ensures note.BytesNote? && codec(note.bytes).None? ==> Latin1Encode(text) == Some(note.bytes)
  {
    match note
    case TextNote(t) => t
    case BytesNote(b) =>
      match codec(b)
      case Some(t) => t
      case None => Latin1RoundTrip(b); Latin1Decode(b)
  }

  /** The candidate lines: the decoded note, trailing carriage returns removed,
      cut at every remaining carriage return. */
  function NoteLines(note: NoteBlob, codec: Decoder): (lines: seq<string>)
    ensures |lines| >= 1
    ensures forall i :: 0 <= i < |lines| ==> '\r' !in lines[i]
    ensures Join(lines, '\r') == RStrip(DecodeNote(note, codec), {'\r'})
  {
    var text := RStrip(DecodeNote(note, codec), {'\r'});
    JoinSplit(text, '\r');
    Split(text, '\r')
  }

  /** A line yields an entry exactly when it has one colon. */
  function LineEntry(line: string): (entry: Option<(string, string)>)
    ensures entry.Some? <==> Count(line, ':') == 1
  {
    var temp := Split(line, ':');
    if |temp| == 2 then Some((Strip(temp[0], Whitespace), Strip(temp[1], Whitespace))) else None
  }

  /** The entry is the whitespace-stripped text before and after the line's colon. */
  lemma LineEntryAtColon(line: string)
    requires LineEntry(line).Some?
    ensures exists c :: 0 <= c < |line| && line[c] == ':'
                        && LineEntry(line).value == (Strip(line[..c], Whitespace), Strip(line[c + 1..], Whitespace))
  {
    var temp := Split(line, ':');
    JoinSplit(line, ':');
    assert line == temp[0] + [':'] + temp[1];
    var c := |temp[0]|;
    assert line[..c] == temp[0] && line[c + 1..] == temp[1] && line[c] == ':';
  }

  predicate HasKey(line: string, key: string)
  {
    LineEntry(line).Some? && LineEntry(line).value.0 == key
  }

  /** The value stored for an entry's text: a whole number as an integer, any
      other finite or infinite number as a float, and the text itself when it is
      not a number or is NaN. */
  function Coerce<F>(fops: FloatOps<F>, text: string): (v: Value<F>)
    ensures v.TextV? <==> fops.parse(text).None? || fops.isNaN(fops.parse(text).value)
    ensures v.TextV? ==> v.s == text
    ensures v.IntV? <==>
              (fops.parse(text).Some? && !fops.isNaN(fops.parse(text).value)
               && !fops.isInf(fops.parse(text).value) && fops.isIntegral(fops.parse(text).value))
    ensures v.IntV? ==> v.i == fops.trunc(fops.parse(text).value)
    ensures v.FloatV? ==> Some(v.f) == fops.parse(text)
  {
    match fops.parse(text)
    case None => TextV(text)
    case Some(num) =>
      if fops.isNaN(num) then TextV(text)
      else if fops.isInf(num) then FloatV(num)
      else if fops.isIntegral(num) then IntV(fops.trunc(num))
      else FloatV(num)
  }

  /** The map built by the loop over `lines`, one entry per line that yields one,
      each later line overwriting the earlier value of its key. */
  function LineParams<F>(fops: FloatOps<F>, lines: seq<string>): map<string, Value<F>>
  {
    if lines == [] then map[]
    else
      var m := LineParams(fops, lines[..|lines| - 1]);
      match LineEntry(lines[|lines| - 1])
      case None => m
      case Some(kv) => m[kv.0 := Coerce(fops, kv.1)]
  }

  /** The index of the last line whose entry has key `key`, or -1. */
  function LastLine(lines: seq<string>, key: string): (i: int)
    ensures -1 <= i < |lines|
    ensures i >= 0 ==> HasKey(lines[i], key)
    ensures forall j :: i < j < |lines| ==> !HasKey(lines[j], key)
  {
    if lines == [] then -1
    else if HasKey(lines[|lines| - 1], key) then |lines| - 1
    else
      var init := lines[..|lines| - 1];
      assert forall j :: 0 <= j < |init| ==> init[j] == lines[j];
      LastLine(init, key)
  }

  /** A key is present exactly when some line yields it, and its value is the
      coercion of the last such line's value text. */
  lemma {:induction false} LastLineWins<F>(fops: FloatOps<F>, lines: seq<string>, key: string)
    ensures key in LineParams(fops, lines) <==> exists i :: 0 <= i < |lines| && HasKey(lines[i], key)
    ensures key in LineParams(fops, lines) ==>
      LineParams(fops, lines)[key] == Coerce(fops, LineEntry(lines[LastLine(lines, key)]).value.1)
  {
    if lines != [] {
      var init := lines[..|lines| - 1];
      LastLineWins(fops, init, key);
      assert forall i :: 0 <= i < |init| ==> init[i] == lines[i];
      if !HasKey(lines[|lines| - 1], key) {
        assert LastLine(lines, key) == LastLine(init, key);
      }
    }
  }

  /** The header keys copied into the parameters after the note. */
  const DateKeys: seq<string> := ["creationDate", "modDate"]

  /** `m` with each of `keys` that `src` has overwritten by its value in `src`,
      in order; keys `src` lacks are skipped. */
  function CopyKeys<F>(m: map<string, Value<F>>, src: map<string, Value<F>>, keys: seq<string>): (r: map<string, Value<F>>)
    ensures forall k :: k in r <==> k in m || (k in keys && k in src)
    ensures forall k :: k in r ==> r[k] == if k in keys && k in src then src[k] else m[k]
  {
    if keys == [] then m
    else
      var r := CopyKeys(m, src, keys[..|keys| - 1]);
      assert forall k :: k in keys <==> k in keys[..|keys| - 1] || k == keys[|keys| - 1];
      var last := keys[|keys| - 1];
      if last in src then r[last := src[last]] else r
  }

  /** What `read_note` returns for `raw`. */
  function NoteParams<F>(raw: RawWave<F>, fops: FloatOps<F>, codec: Decoder): map<string, Value<F>>
  {
    CopyKeys(LineParams(fops, NoteLines(raw.note, codec)), raw.waveHeader, DateKeys)
  }

  /** Lines 34-43 as written: store the float, narrow it to an integer when
      `int(num)` succeeds and equals it, and fall back to the raw text on
      `ValueError`; the result is the entry `Coerce` describes. */
  method StoreValue<F>(parms0: map<string, Value<F>>, key: string, text: string, fops: FloatOps<F>)
    returns (parms: map<string, Value<F>>)
    ensures parms == parms0[key := Coerce(fops, text)]
  {
    parms := parms0;
    match fops.parse(text)
    case None =>
      // float() raised ValueError
      parms := parms[key := TextV(text)];
    case Some(num) =>
      parms := parms[key := FloatV(num)];
      if fops.isNaN(num) {
        // int(nan) raises ValueError, caught by the outer handler
        parms := parms[key := TextV(text)];
      } else if fops.isInf(num) {
        // int(inf) raises OverflowError, which is swallowed: the float stays
      } else if fops.isIntegral(num) {
        parms := parms[key := IntV(fops.trunc(num))];
      }
  }

  /** Lines 21-53 as written: decode, strip and split, then fill the map line by
      line with Python's try/except coercion, then copy the header dates. */
  method ReadNote<F>(raw: RawWave<F>, fops: FloatOps<F>, codec: Decoder) returns (parms: map<string, Value<F>>)
    ensures parms == NoteParams(raw, fops, codec)
  {
    var binaryNote := DecodeNote(raw.note, codec);
    binaryNote := RStrip(binaryNote, {'\r'});
    var parmList := Split(binaryNote, '\r');
    parms := map[];
    for n := 0 to |parmList|
      invariant parms == LineParams(fops, parmList[..n])
    {
      assert parmList[..n + 1][..n] == parmList[..n];
      var temp := Split(parmList[n], ':');
      if |temp| == 2 {
        var key, text := Strip(temp[0], Whitespace), Strip(temp[1], Whitespace);
        assert LineEntry(parmList[n]) == Some((key, text));
        parms := StoreValue(parms, key, text, fops);
      }
    }
    assert parmList[..|parmList|] == parmList;
    var header := raw.waveHeader;
    var lineParms := parms;
    for d := 0 to |DateKeys|
      invariant parms == CopyKeys(lineParms, header, DateKeys[..d])
    {
      assert DateKeys[..d + 1][..d] == DateKeys[..d];
      var key := DateKeys[d];
      if key in header {
        parms := parms[key := header[key]];
      }
    }
    assert DateKeys[..|DateKeys|] == DateKeys;
  }

  /** The whole of `read_note`: a header date wins over the note; every other
      key comes from the last note line that yields it, and is absent when none does. */
  lemma NoteParamsEntry<F>(raw: RawWave<F>, fops: FloatOps<F>, codec: Decoder, key: string)
    ensures var lines := NoteLines(raw.note, codec);
      var parms := NoteParams(raw, fops, codec);
      && (key in DateKeys && key in raw.waveHeader ==> key in parms && parms[key] == raw.waveHeader[key])
      && (!(key in DateKeys && key in raw.waveHeader) ==>
            (key in parms <==> exists i :: 0 <= i < |lines| && HasKey(lines[i], key))
            && (key in parms ==> parms[key] == Coerce(fops, LineEntry(lines[LastLine(lines, key)]).value.1)))
  {
    LastLineWins(fops, NoteLines(raw.note, codec), key);
  }
}
