/** `get_force_curve_segments`: the force curve's segment ranges rebuilt from the
    note's `Indexes` and `Direction` parameters. */
module Segments {
  import opened Wrappers
  import opened Text
  import opened Wave

  /** Keys of the segment dictionary: the four the function starts with, plus the
      two the loop can also write, the literal `"dwell"` type and `np.nan`. */
  datatype SegKey = Ext | Ret | DwellTowards | DwellAway | Dwell | NaNKey

  /** A dictionary value: `(None, None)` or `(start, end)`. */
  datatype Span = Unset | Span(start: int, end: int)

  /** Why the function raises: `KeyError` for a missing parameter or an unknown
      direction token, `AttributeError` when a parameter was coerced to a number
      and has no `split`, `ValueError` from `int()` on an index token, and
      `IndexError` when `Direction` has no token at an index position. */
  datatype SegError =
    | MissingKey(key: string)
    | NotText(key: string)
    | BadIndex(token: string)
    | UnknownDirection(token: string)
    | MissingDirection(position: nat)

  /** The dictionary before the loop. */
  const Initial: map<SegKey, Span> :=
    map[Ext := Unset, Ret := Unset, DwellTowards := Unset, DwellAway := Unset]

  /** `direction_types[token]`: no stripping, no other spelling. */
  function DirectionType(token: string): (t: Option<SegKey>)
    ensures t.Some? <==> token in {"1", "-1", "0", "NaN"}
  {
    if token == "1" then Some(Ext)
    else if token == "-1" then Some(Ret)
    else if token == "0" then Some(Dwell)
    else if token == "NaN" then Some(NaNKey)
    else None
  }

  /** The key written for boundary `i`: the type of `dirs[i]`, with a dwell
      after an extension or a retraction told apart by the previous token. */
  function SegmentType(dirs: seq<string>, i: nat): (t: Option<SegKey>)
    requires 1 <= i < |dirs|
    ensures t == Some(Ext) <==> dirs[i] == "1"
    ensures t == Some(Ret) <==> dirs[i] == "-1"
    ensures t == Some(DwellTowards) <==> dirs[i] == "0" && dirs[i - 1] == "1"
    ensures t == Some(DwellAway) <==> dirs[i] == "0" && dirs[i - 1] == "-1"
    ensures t == Some(Dwell) <==> dirs[i] == "0" && dirs[i - 1] != "1" && dirs[i - 1] != "-1"
    ensures t == Some(NaNKey) <==> dirs[i] == "NaN"
    ensures t == None <==> dirs[i] !in {"1", "-1", "0", "NaN"}
  {
    match DirectionType(dirs[i])
    case None => None
    case Some(Dwell) =>
      if dirs[i - 1] == "1" then Some(DwellTowards)
      else if dirs[i - 1] == "-1" then Some(DwellAway)
      else Some(Dwell)
    case Some(k) => Some(k)
  }

  /** The dictionary after the loop has handled positions `0 .. n - 1`, or the
      error it raised on the way. */
  function SegmentsUpTo(indexes: seq<int>, dirs: seq<string>, n: nat): Result<map<SegKey, Span>, SegError>
    requires n <= |indexes|
  {
    if n <= 1 then Success(Initial)
    else
      match SegmentsUpTo(indexes, dirs, n - 1)
      case Failure(e) => Failure(e)
      case Success(m) =>
        if n - 1 >= |dirs| then Failure(MissingDirection(n - 1))
        else
          match SegmentType(dirs, n - 1)
          case None => Failure(UnknownDirection(dirs[n - 1]))
          case Some(k) => Success(m[k := Span(indexes[n - 2], indexes[n - 1])])
  }

  /** An error, once raised, is the final outcome. */
  lemma {:induction false} FailureIsFinal(indexes: seq<int>, dirs: seq<string>, n: nat, n': nat)
    requires n <= n' <= |indexes|
    requires SegmentsUpTo(indexes, dirs, n).Failure?
    ensures SegmentsUpTo(indexes, dirs, n') == SegmentsUpTo(indexes, dirs, n)
    decreases n' - n
  {
    if n < n' {
      FailureIsFinal(indexes, dirs, n, n' - 1);
    }
  }

  /** Lines 121-151 on the already split and converted values: the loop over
      the boundaries, overwriting one dictionary entry per boundary after the first. */
  method ForceCurveSegments(indexes: seq<int>, dirs: seq<string>) returns (r: Result<map<SegKey, Span>, SegError>)
    ensures r == SegmentsUpTo(indexes, dirs, |indexes|)
  {
    var segments := Initial;
    for i := 0 to |indexes|
      invariant SegmentsUpTo(indexes, dirs, i) == Success(segments)
    {
      if i == 0 {
        // the first boundary is always 0, with direction NaN
      } else {
        var start, end := indexes[i - 1], indexes[i];
        if i >= |dirs| {
          FailureIsFinal(indexes, dirs, i + 1, |indexes|);
          return Failure(MissingDirection(i));
        }
        var segType := DirectionType(dirs[i]);
        if segType.None? {
          FailureIsFinal(indexes, dirs, i + 1, |indexes|);
          return Failure(UnknownDirection(dirs[i]));
        }
        var key := segType.value;
        if key == Dwell {
          if dirs[i - 1] == "1" {
            key := DwellTowards;
          } else if dirs[i - 1] == "-1" {
            key := DwellAway;
          }
        }
        segments := segments[key := Span(start, end)];
      }
    }
    r := Success(segments);
  }

  /** Boundary `i` has a direction token, and a known one. */
  predicate HasDirection(dirs: seq<string>, i: nat)
  {
    i < |dirs| && DirectionType(dirs[i]).Some?
  }

  /** The loop finishes exactly when every boundary after the first has a
      direction token, and each is one of the four known tokens. */
  lemma {:induction false} SegmentsSucceedIff(indexes: seq<int>, dirs: seq<string>, n: nat)
    requires n <= |indexes|
    ensures SegmentsUpTo(indexes, dirs, n).Success? <==> forall i :: 1 <= i < n ==> HasDirection(dirs, i)
  {
    if n > 1 {
      SegmentsSucceedIff(indexes, dirs, n - 1);
      if SegmentsUpTo(indexes, dirs, n - 1).Failure? {
        var i :| 1 <= i < n - 1 && !HasDirection(dirs, i);
      } else if !HasDirection(dirs, n - 1) {
        if n - 1 < |dirs| {
          assert SegmentType(dirs, n - 1).None?;
        }
      } else {
        assert SegmentType(dirs, n - 1).Some?;
      }
    }
  }

  /** With every given token valid but too few of them, the loop runs off the
      end of `Direction`. */
  lemma TooFewDirections(indexes: seq<int>, dirs: seq<string>)
    requires 1 <= |dirs| < |indexes|
    requires forall i :: 1 <= i < |dirs| ==> HasDirection(dirs, i)
    ensures SegmentsUpTo(indexes, dirs, |indexes|) == Failure(MissingDirection(|dirs|))
  {
    SegmentsSucceedIff(indexes, dirs, |dirs|);
    FailureIsFinal(indexes, dirs, |dirs| + 1, |indexes|);
  }

  /** The last boundary below `n` whose segment has key `k`, or 0 if none. */
  function LastOfType(dirs: seq<string>, k: SegKey, n: nat): (last: nat)
    ensures last < n || last == 0
    ensures last > 0 ==> last < |dirs| && SegmentType(dirs, last) == Some(k)
    ensures forall i :: last < i < n && i < |dirs| ==> SegmentType(dirs, i) != Some(k)
  {
    if n <= 1 then 0
    else if n - 1 < |dirs| && SegmentType(dirs, n - 1) == Some(k) then n - 1
    else LastOfType(dirs, k, n - 1)
  }

  /** The canonical keys.  */
  predicate Canonical(k: SegKey)
  {
    k in Initial
  }

  /** Last write wins: on success a key is present when it is one of the four
      initial keys or some boundary wrote it, and it holds the span of the last
      boundary that wrote it, or `(None, None)`. */
  lemma {:induction false} LastWriteWins(indexes: seq<int>, dirs: seq<string>, n: nat, k: SegKey)
    requires n <= |indexes| && SegmentsUpTo(indexes, dirs, n).Success?
    ensures var m := SegmentsUpTo(indexes, dirs, n).value;
            var last := LastOfType(dirs, k, n);
            && (k in m <==> Canonical(k) || last > 0)
            && (k in m ==> m[k] == if last > 0 then Span(indexes[last - 1], indexes[last]) else Unset)
  {
    if n > 1 {
      LastWriteWins(indexes, dirs, n - 1, k);
    }
  }

  /** A curve with extension, dwell and retraction. */
  lemma ExtendDwellRetract()
    ensures SegmentsUpTo([0, 100, 250, 400], ["NaN", "1", "0", "-1"], 4)
            == Success(map[Ext := Span(0, 100), Ret := Span(250, 400),
                           DwellTowards := Span(100, 250), DwellAway := Unset])
  {
    var indexes, dirs := [0, 100, 250, 400], ["NaN", "1", "0", "-1"];
    assert SegmentType(dirs, 1) == Some(Ext);
    assert SegmentType(dirs, 2) == Some(DwellTowards);
    assert SegmentType(dirs, 3) == Some(Ret);
    assert SegmentsUpTo(indexes, dirs, 2) == Success(Initial[Ext := Span(0, 100)]);
    var m := Initial[Ext := Span(0, 100)][DwellTowards := Span(100, 250)];
    assert SegmentsUpTo(indexes, dirs, 3) == Success(m);
    assert SegmentsUpTo(indexes, dirs, 4) == Success(m[Ret := Span(250, 400)]);
    assert m[Ret := Span(250, 400)] == map[Ext := Span(0, 100), Ret := Span(250, 400),
                                           DwellTowards := Span(100, 250), DwellAway := Unset];
  }

  /** A zero-length retraction and a dwell after it. */
  lemma RetractThenDwell()
    ensures SegmentsUpTo([0, 50, 50, 120], ["NaN", "1", "-1", "0"], 4)
            == Success(map[Ext := Span(0, 50), Ret := Span(50, 50),
                           DwellTowards := Unset, DwellAway := Span(50, 120)])
  {
    var indexes, dirs := [0, 50, 50, 120], ["NaN", "1", "-1", "0"];
    assert SegmentType(dirs, 1) == Some(Ext);
    assert SegmentType(dirs, 2) == Some(Ret);
    assert SegmentType(dirs, 3) == Some(DwellAway);
    assert SegmentsUpTo(indexes, dirs, 2) == Success(Initial[Ext := Span(0, 50)]);
    var m := Initial[Ext := Span(0, 50)][Ret := Span(50, 50)];
    assert SegmentsUpTo(indexes, dirs, 3) == Success(m);
    assert SegmentsUpTo(indexes, dirs, 4) == Success(m[DwellAway := Span(50, 120)]);
    assert m[DwellAway := Span(50, 120)] == map[Ext := Span(0, 50), Ret := Span(50, 50),
                                                DwellTowards := Unset, DwellAway := Span(50, 120)];
  }

  /** A dwell right after the leading NaN lands under the literal `"dwell"` key. */
  lemma DwellAfterNaN()
    ensures SegmentsUpTo([0, 10], ["NaN", "0"], 2)
            == Success(Initial[Dwell := Span(0, 10)])
  {
  }

  /** The text of a note parameter, as `.split` needs it. */
  function TextParam<F>(params: map<string, Value<F>>, key: string): (r: Result<string, SegError>)
    ensures r.Success? <==> key in params && params[key].TextV?
    ensures key !in params ==> r == Failure(MissingKey(key))
    ensures r.Success? ==> r.value == params[key].s
  {
    if key !in params then Failure(MissingKey(key))
    else match params[key]
      case TextV(s) => Success(s)
      case _ => Failure(NotText(key))
  }

  /** `[int(index) for index in tokens]`, with `parseInt` standing for `int(str)`:
      all converted in order, or the first token that does not convert. */
  function ParseIndexes(tokens: seq<string>, parseInt: string -> Option<int>): (r: Result<seq<int>, SegError>)
    ensures r.Success? <==> forall i :: 0 <= i < |tokens| ==> parseInt(tokens[i]).Some?
    ensures r.Success? ==> |r.value| == |tokens|
                           && forall i :: 0 <= i < |tokens| ==> parseInt(tokens[i]) == Some(r.value[i])
    ensures r.Failure? ==> exists i :: 0 <= i < |tokens| && parseInt(tokens[i]).None? && r.error == BadIndex(tokens[i])
  {
    if tokens == [] then Success([])
    else
      match parseInt(tokens[0])
      case None => Failure(BadIndex(tokens[0]))
      case Some(n) =>
        match ParseIndexes(tokens[1..], parseInt)
        case Failure(e) =>
          assert forall i :: 1 <= i < |tokens| ==> tokens[i] == tokens[1..][i - 1];
          Failure(e)
        case Success(ns) =>
          assert forall i :: 1 <= i < |tokens| ==> tokens[i] == tokens[1..][i - 1];
          Success([n] + ns)
  }

  /** What `get_force_curve_segments` returns for a parsed note. */
  function NoteSegments<F>(params: map<string, Value<F>>, parseInt: string -> Option<int>)
    : Result<map<SegKey, Span>, SegError>
  {
    var indexText :- TextParam(params, "Indexes");
    var indexes :- ParseIndexes(Split(indexText, ','), parseInt);
    var dirText :- TextParam(params, "Direction");
    SegmentsUpTo(indexes, Split(dirText, ','), |indexes|)
  }

  /** The parameters are read in source order: `Indexes` (present, text, every
      token an integer) before `Direction`; a success always has the four
      initial keys. */
  lemma NoteSegmentsErrors<F>(params: map<string, Value<F>>, parseInt: string -> Option<int>)
    ensures "Indexes" !in params ==> NoteSegments(params, parseInt) == Failure(MissingKey("Indexes"))
    ensures "Indexes" in params && !params["Indexes"].TextV? ==>
              NoteSegments(params, parseInt) == Failure(NotText("Indexes"))
    ensures NoteSegments(params, parseInt).Success? ==>
              "Direction" in params && params["Direction"].TextV?
              && Initial.Keys <= NoteSegments(params, parseInt).value.Keys
  {
    var r := NoteSegments(params, parseInt);
    if r.Success? {
      var indexes := ParseIndexes(Split(params["Indexes"].s, ','), parseInt).value;
      var dirs := Split(params["Direction"].s, ',');
      forall k | k in Initial ensures k in r.value {
        LastWriteWins(indexes, dirs, |indexes|, k);
      }
    }
  }

  /** Lines 105-153. */
  method GetForceCurveSegments<F>(waveNote: map<string, Value<F>>, parseInt: string -> Option<int>)
    returns (r: Result<map<SegKey, Span>, SegError>)
    ensures r == NoteSegments(waveNote, parseInt)
  {
    var indexText :- TextParam(waveNote, "Indexes");
    var segmentIndices :- ParseIndexes(Split(indexText, ','), parseInt);
    var dirText :- TextParam(waveNote, "Direction");
    var segmentDirections := Split(dirText, ',');
    r := ForceCurveSegments(segmentIndices, segmentDirections);
  }
}
