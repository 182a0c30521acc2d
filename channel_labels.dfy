/** `get_chan_labels`: channel names from the wave's label groups, with a
    default physical unit per channel. */
module ChannelLabels {
  import opened Wrappers
  import opened Text
  import opened Codecs

  /* ---------- flattening the label groups (lines 72-76) ---------- */

  /** The groups concatenated in order. */
  function Flatten<T>(groups: seq<seq<T>>): seq<T>
  {
    if groups == [] then [] else Flatten(groups[..|groups| - 1]) + groups[|groups| - 1]
  }

  /** Every entry of every group, and nothing else, ends up in the flat list. */
  lemma {:induction false} FlattenMembers<T>(groups: seq<seq<T>>, x: T)
    ensures x in Flatten(groups) <==> exists g :: 0 <= g < |groups| && x in groups[g]
  {
    if groups != [] {
      var init := groups[..|groups| - 1];
      FlattenMembers(init, x);
      assert forall g :: 0 <= g < |init| ==> init[g] == groups[g];
    }
  }

  /** The `+=` loop that skips empty groups; skipping them changes nothing. */
  method FlattenLabels(groups: seq<seq<seq<byte>>>) returns (binaryLabels: seq<seq<byte>>)
    ensures binaryLabels == Flatten(groups)
  {
    binaryLabels := [];
    for g := 0 to |groups|
      invariant binaryLabels == Flatten(groups[..g])
    {
      assert groups[..g + 1][..g] == groups[..g];
      if |groups[g]| > 0 {
        binaryLabels := binaryLabels + groups[g];
      }
    }
    assert groups[..|groups|] == groups;
  }

  /* ---------- decoding (line 77) ---------- */

  /** `[item.decode() for item in entries]`: all decoded in order, or the first
      entry that does not decode, whose `UnicodeDecodeError` aborts the call. */
  function DecodeAll(decode: Decoder, entries: seq<seq<byte>>): (r: Result<seq<string>, seq<byte>>)
    ensures r.Success? <==> forall i :: 0 <= i < |entries| ==> decode(entries[i]).Some?
    ensures r.Success? ==> |r.value| == |entries|
                           && forall i :: 0 <= i < |entries| ==> decode(entries[i]) == Some(r.value[i])
    ensures r.Failure? ==> exists i :: 0 <= i < |entries| && decode(entries[i]).None? && r.error == entries[i]
                                       && forall j :: 0 <= j < i ==> decode(entries[j]).Some?
  {
    if entries == [] then Success([])
    else
      match decode(entries[0])
      case None => Failure(entries[0])
      case Some(t) =>
        match DecodeAll(decode, entries[1..])
        case Failure(e) =>
          assert forall i :: 1 <= i < |entries| ==> entries[i] == entries[1..][i - 1];
          Failure(e)
        case Success(ts) =>
          assert forall i :: 1 <= i < |entries| ==> entries[i] == entries[1..][i - 1];
          Success([t] + ts)
  }

  /* ---------- removing empty labels while iterating (lines 78-80) ---------- */

  /** Position of the first occurrence of `x` in `s`. */
  function FirstIndex(s: seq<string>, x: string): (i: nat)
    requires x in s
    ensures i < |s| && s[i] == x && x !in s[..i]
  {
    if s[0] == x then 0
    else
      var i := 1 + FirstIndex(s[1..], x);
      assert s[..i] == [s[0]] + s[1..][..i - 1];
      i
  }

  /** `s.remove(x)`: `s` without its first occurrence of `x` (Python raises
      `ValueError` when there is none; the loop below never lets that happen). */
  function RemoveFirst(s: seq<string>, x: string): seq<string>
    requires x in s
  {
    var i := FirstIndex(s, x);
    s[..i] + s[i + 1..]
  }

  lemma RemoveFirstCons(s: seq<string>, x: string)
    requires s != [] && s[0] != x && x in s
    ensures x in s[1..]
    ensures RemoveFirst(s, x) == [s[0]] + RemoveFirst(s[1..], x)
  {
    assert s == [s[0]] + s[1..];
    var i := FirstIndex(s[1..], x);
    assert FirstIndex(s, x) == i + 1;
    assert s[..i + 1] == [s[0]] + s[1..][..i];
    assert s[i + 2..] == s[1..][i + 1..];
  }

  /** Number of empty strings in `s`. */
  function Empties(s: seq<string>): nat
  {
    if s == [] then 0 else (if s[0] == "" then 1 else 0) + Empties(s[1..])
  }

  /** `s` without its first `n` empty strings (all of them if there are fewer). */
  function DropEmpties(s: seq<string>, n: nat): seq<string>
  {
    if s == [] then []
    else if n > 0 && s[0] == "" then DropEmpties(s[1..], n - 1)
    else [s[0]] + DropEmpties(s[1..], n)
  }

  /** How many removals the loop makes from original position `j` on: the list
      iterator visits position `j`; an empty string there is removed, so the
      element after it slides into the visited slot and is never looked at. */
  function RemovalsFrom(s: seq<string>, j: nat): nat
    decreases |s| - j
  {
    if j >= |s| then 0
    else if s[j] == "" then 1 + RemovalsFrom(s, j + 2)
    else RemovalsFrom(s, j + 1)
  }

  /** The labels the loop leaves: the first `RemovalsFrom(s, 0)` empty strings
      are gone, every other entry stays in place. */
  function SurvivingLabels(s: seq<string>): seq<string>
  {
    DropEmpties(s, RemovalsFrom(s, 0))
  }

  lemma {:induction false} EmptiesAppend(t: seq<string>, u: seq<string>)
    ensures Empties(t + u) == Empties(t) + Empties(u)
  {
    if t != [] {
      assert (t + u)[1..] == t[1..] + u;
      EmptiesAppend(t[1..], u);
    } else {
      assert t + u == u;
    }
  }

  lemma {:induction false} DropNone(s: seq<string>)
    ensures DropEmpties(s, 0) == s
  {
    if s != [] {
      DropNone(s[1..]);
    }
  }

  /** Once `t` holds the `n` empty strings to drop, what follows is untouched. */
  lemma {:induction false} DropAppend(t: seq<string>, u: seq<string>, n: nat)
    requires n <= Empties(t)
    ensures DropEmpties(t + u, n) == DropEmpties(t, n) + u
  {
    if t == [] {
      assert t + u == u;
      DropNone(u);
    } else {
      assert (t + u)[1..] == t[1..] + u;
      if n > 0 && t[0] == "" {
        DropAppend(t[1..], u, n - 1);
      } else {
        DropAppend(t[1..], u, n);
      }
    }
  }

  lemma {:induction false} DropLength(t: seq<string>, n: nat)
    requires n <= Empties(t)
    ensures |DropEmpties(t, n)| == |t| - n
    ensures Empties(DropEmpties(t, n)) == Empties(t) - n
  {
    if t != [] {
      if n > 0 && t[0] == "" {
        DropLength(t[1..], n - 1);
      } else {
        DropLength(t[1..], n);
        assert ([t[0]] + DropEmpties(t[1..], n))[1..] == DropEmpties(t[1..], n);
      }
    }
  }

  /** One more `remove('')` drops the next empty string. */
  lemma {:induction false} RemoveFirstDrop(t: seq<string>, n: nat)
    requires n < Empties(t)
    ensures "" in DropEmpties(t, n)
    ensures RemoveFirst(DropEmpties(t, n), "") == DropEmpties(t, n + 1)
  {
    if t[0] == "" {
      if n > 0 {
        RemoveFirstDrop(t[1..], n - 1);
      } else {
        var d := DropEmpties(t, n);
        assert d == [""] + DropEmpties(t[1..], 0);
        assert FirstIndex(d, "") == 0;
        assert d[1..] == DropEmpties(t[1..], 0);
      }
    } else {
      RemoveFirstDrop(t[1..], n);
      var d := DropEmpties(t, n);
      assert d == [t[0]] + DropEmpties(t[1..], n);
      assert d[1..] == DropEmpties(t[1..], n);
      RemoveFirstCons(d, "");
    }
  }

  /** The live list with `n` removals made before original position `j`: its
      length, and the element under the iterator. */
  lemma LiveList(s: seq<string>, j: nat, n: nat)
    requires j <= |s| && n <= Empties(s[..j])
    ensures n <= Empties(s) && n <= j
    ensures |DropEmpties(s, n)| == |s| - n
    ensures j < |s| ==> DropEmpties(s, n)[j - n] == s[j]
  {
    assert s[..j] + s[j..] == s;
    DropAppend(s[..j], s[j..], n);
    DropLength(s[..j], n);
    EmptiesAppend(s[..j], s[j..]);
    DropLength(s, n);
  }

  /** Visiting a non-empty label: nothing is removed. */
  lemma StepPastLabel(s: seq<string>, j: nat, n: nat)
    requires j < |s| && n <= Empties(s[..j])
    ensures n <= Empties(s[..j + 1])
  {
    assert s[..j + 1] == s[..j] + [s[j]];
    EmptiesAppend(s[..j], [s[j]]);
  }

  /** Visiting an empty label: `remove('')` drops the next empty string, and the
      iterator's next slot holds original position `j + 2`. */
  lemma StepPastEmpty(s: seq<string>, j: nat, n: nat)
    requires j < |s| && s[j] == "" && n <= Empties(s[..j])
    ensures "" in DropEmpties(s, n)
    ensures RemoveFirst(DropEmpties(s, n), "") == DropEmpties(s, n + 1)
    ensures j + 2 <= |s| ==> n + 1 <= Empties(s[..j + 2])
    ensures |DropEmpties(s, n + 1)| == |s| - n - 1
  {
    assert s[..j + 1] == s[..j] + [s[j]];
    EmptiesAppend(s[..j], [s[j]]);
    assert s[..j + 1] + s[j + 1..] == s;
    EmptiesAppend(s[..j + 1], s[j + 1..]);
    RemoveFirstDrop(s, n);
    DropLength(s, n + 1);
    if j + 2 <= |s| {
      assert s[..j + 2] == s[..j + 1] + [s[j + 1]];
      EmptiesAppend(s[..j + 1], [s[j + 1]]);
    }
  }

  /** Lines 78-80 as written: Python's list iterator walks the live list by
      index while `labels.remove('')` deletes the first empty string, which
      shifts the rest left under the iterator. */
  method RemoveEmptyLabels(labels0: seq<string>) returns (labels: seq<string>)
    ensures labels == SurvivingLabels(labels0)
  {
    labels := labels0;
    var idx := 0;                  // the iterator's next index into the live list
    ghost var removed: nat := 0;   // removals so far
    ghost var j: nat := 0;         // original position of the element at idx
    DropNone(labels0);
    while idx < |labels|
      invariant j == idx + removed && j <= |labels0| + 1
      invariant labels == DropEmpties(labels0, removed)
      invariant j <= |labels0| ==> removed <= Empties(labels0[..j])
      invariant j == |labels0| + 1 ==> idx == |labels| + 1
      invariant removed + RemovalsFrom(labels0, j) == RemovalsFrom(labels0, 0)
      decreases |labels| - idx
    {
      LiveList(labels0, j, removed);
      var item := labels[idx];
      idx := idx + 1;
      if item == "" {
        StepPastEmpty(labels0, j, removed);
        assert RemovalsFrom(labels0, j) == 1 + RemovalsFrom(labels0, j + 2);
        labels := RemoveFirst(labels, item);
        removed := removed + 1;
        j := j + 2;
      } else {
        StepPastLabel(labels0, j, removed);
        assert RemovalsFrom(labels0, j) == RemovalsFrom(labels0, j + 1);
        j := j + 1;
      }
    }
    if j <= |labels0| {
      LiveList(labels0, j, removed);
    }
  }

  /** The non-empty labels of `s`, in order. */
  function NonEmpty(s: seq<string>): seq<string>
  {
    if s == [] then [] else (if s[0] == "" then [] else [s[0]]) + NonEmpty(s[1..])
  }

  /** Removal never adds, reorders or loses a non-empty label: only empty
      strings go, and the result is a sub-multiset of the input. */
  lemma {:induction false} DropPreservesNonEmpty(s: seq<string>, n: nat)
    ensures NonEmpty(DropEmpties(s, n)) == NonEmpty(s)
    ensures multiset(DropEmpties(s, n)) <= multiset(s)
    ensures |DropEmpties(s, n)| <= |s|
  {
    if s != [] {
      assert s == [s[0]] + s[1..];
      if n > 0 && s[0] == "" {
        DropPreservesNonEmpty(s[1..], n - 1);
      } else {
        DropPreservesNonEmpty(s[1..], n);
        var d := DropEmpties(s, n);
        assert d == [s[0]] + DropEmpties(s[1..], n);
        assert d[1..] == DropEmpties(s[1..], n);
      }
    }
  }

  /** What the removal loop leaves keeps every non-empty label, in order, and
      adds nothing. */
  lemma SurvivingKeepsLabels(s: seq<string>)
    ensures NonEmpty(SurvivingLabels(s)) == NonEmpty(s)
    ensures multiset(SurvivingLabels(s)) <= multiset(s)
  {
    DropPreservesNonEmpty(s, RemovalsFrom(s, 0));
  }

  /** Two empty labels side by side at or after original position `j`. */
  predicate AdjacentEmptiesFrom(s: seq<string>, j: nat)
  {
    exists k :: j <= k && k + 1 < |s| && s[k] == "" && s[k + 1] == ""
  }

  /** The loop removes one empty string per visited empty slot; it falls short
      of all the empty strings exactly when two of them are adjacent. */
  lemma {:induction false} RemovalsCount(s: seq<string>, j: nat)
    requires j <= |s|
    ensures RemovalsFrom(s, j) <= Empties(s[j..])
    ensures RemovalsFrom(s, j) == Empties(s[j..]) <==> !AdjacentEmptiesFrom(s, j)
    decreases |s| - j
  {
    if j < |s| {
      assert s[j..][1..] == s[j + 1..];
      if s[j] == "" {
        if j + 1 == |s| {
          assert s[j + 1..] == [];
        } else {
          assert s[j + 1..][1..] == s[j + 2..];
          RemovalsCount(s, j + 2);
          if s[j + 1] == "" {
            assert AdjacentEmptiesFrom(s, j);
          } else if AdjacentEmptiesFrom(s, j) {
            var k :| j <= k && k + 1 < |s| && s[k] == "" && s[k + 1] == "";
            assert k >= j + 2;
          }
        }
      } else {
        RemovalsCount(s, j + 1);
        if AdjacentEmptiesFrom(s, j) {
          var k :| j <= k && k + 1 < |s| && s[k] == "" && s[k + 1] == "";
          assert k >= j + 1;
        }
      }
    }
  }

  lemma {:induction false} EmptiesZero(s: seq<string>)
    ensures Empties(s) == 0 <==> "" !in s
  {
    if s != [] {
      EmptiesZero(s[1..]);
      assert s == [s[0]] + s[1..];
    }
  }

  /** The loop clears every empty label exactly when no two empty labels are
      adjacent in its input. */
  lemma AllEmptiesRemovedIff(s: seq<string>)
    ensures "" !in SurvivingLabels(s) <==> !AdjacentEmptiesFrom(s, 0)
  {
    assert s[0..] == s;
    RemovalsCount(s, 0);
    DropLength(s, RemovalsFrom(s, 0));
    EmptiesZero(SurvivingLabels(s));
  }

  /** A run of two empty labels is only half removed. */
  lemma AdjacentEmptySurvives()
    ensures SurvivingLabels(["", "", "X"]) == ["", "X"]
  {
    var s := ["", "", "X"];
    assert RemovalsFrom(s, 2) == 0;
    assert RemovalsFrom(s, 0) == 1;
    assert DropEmpties(s, 1) == DropEmpties(["", "X"], 0);
    DropNone(["", "X"]);
  }

  /* ---------- default units (lines 82-103) ---------- */

  /** Channel names that carry volts without saying so. */
  const VoltChannels: seq<string> := ["In0", "In1", "In2", "BPk0", "BPk1", "BPk2"]

  /** The unit a channel name suggests, first match wins: `Phase...` degrees,
      `Current...` amperes, a name containing "volt" (any case) or one of
      `VoltChannels` volts, a name containing "time" (any case) seconds, and
      metres otherwise. */
  function DefaultUnit(chan: string): (unit: string)
    ensures unit in {"deg", "A", "V", "s", "m"}
    ensures unit == "deg" <==> StartsWith(chan, "Phase")
    ensures chan in VoltChannels ==> unit == "V"
    ensures unit == "m" ==>
              chan !in VoltChannels && !IsSubstring("volt", Lower(chan)) && !IsSubstring("time", Lower(chan))
  {
    if StartsWith(chan, "Phase") then "deg"
    else if StartsWith(chan, "Current") then "A"
    else if IsSubstring("volt", Lower(chan)) || chan in VoltChannels then "V"
    else if IsSubstring("time", Lower(chan)) then "s"
    else "m"
  }

  /** The volt test comes before the time test: a name mentioning both gets volts. */
  lemma VoltBeforeTime(chan: string)
    requires !StartsWith(chan, "Phase") && !StartsWith(chan, "Current")
    requires IsSubstring("volt", Lower(chan)) && IsSubstring("time", Lower(chan))
    ensures DefaultUnit(chan) == "V"
  {
  }

  /** The unit of some typical channel names. */
  lemma UnitExamples()
    ensures DefaultUnit("Phase2Amp") == "deg"
    ensures DefaultUnit("Current1") == "A"
    ensures DefaultUnit("In0") == "V"
  {
    assert !StartsWith("Current1", "Phase") by { assert "Current1"[0] != "Phase"[0]; }
    assert !StartsWith("In0", "Phase") by { assert "In0"[0] != "Phase"[0]; }
    assert !StartsWith("In0", "Current") by { assert "In0"[0] != "Current"[0]; }
  }

  /** A name with both "Volt" and "Time" in it gets volts. */
  lemma UnitOfVoltsTime()
    ensures DefaultUnit("DeflVoltsTime") == "V"
  {
    var chan := "DeflVoltsTime";
    assert !StartsWith(chan, "Phase") by { assert chan[0] != "Phase"[0]; }
    assert !StartsWith(chan, "Current") by { assert chan[0] != "Current"[0]; }
    var low := Lower(chan);
    assert low[4] == 'v' && low[5] == 'o' && low[6] == 'l' && low[7] == 't';
    assert IsSubstring("volt", low[4..]) by { assert "volt" <= low[4..]; }
    assert low[3..][1..] == low[4..];
    assert low[2..][1..] == low[3..];
    assert low[1..][1..] == low[2..];
  }

  /** A name matching no rule gets metres. */
  lemma UnitOfZSensor()
    ensures DefaultUnit("ZSensr") == "m"
  {
    var chan := "ZSensr";
    assert !StartsWith(chan, "Phase") by { assert chan[0] != "Phase"[0]; }
    assert !StartsWith(chan, "Current") by { assert chan[0] != "Current"[0]; }
    var low := Lower(chan);
    assert forall i :: 0 <= i < |chan| ==> chan[i] !in {'v', 'V', 't', 'T'};
    assert 'v' !in low && 't' !in low;
    if IsSubstring("volt", low) {
      SubstringHead("volt", low);
    }
    if IsSubstring("time", low) {
      SubstringHead("time", low);
    }
    assert chan !in VoltChannels;
  }

  /** Lines 82-101 as written: one unit appended per label; the label list is
      written back unchanged (the `bytes` branch cannot be taken, labels are
      already text). */
  method AssignUnits(labels0: seq<string>) returns (labels: seq<string>, units: seq<string>)
    ensures labels == labels0
    ensures |units| == |labels|
    ensures forall i :: 0 <= i < |labels| ==> units[i] == DefaultUnit(labels[i])
  {
    labels := labels0;
    units := [];
    for chanInd := 0 to |labels|
      invariant labels == labels0
      invariant |units| == chanInd
      invariant forall i :: 0 <= i < chanInd ==> units[i] == DefaultUnit(labels[i])
    {
      var chan := labels[chanInd];
      labels := labels[chanInd := chan];
      units := units + [DefaultUnit(chan)];
    }
  }

  /* ---------- the whole of get_chan_labels ---------- */

  datatype ChannelInfo = ChannelInfo(labels: seq<string>, units: seq<string>)

  /** What `get_chan_labels` returns, or the entry whose decoding raised. */
  function Channels(groups: seq<seq<seq<byte>>>, utf8: Decoder): Result<ChannelInfo, seq<byte>>
  {
    var decoded :- DecodeAll(utf8, Flatten(groups));
    var labels := SurvivingLabels(decoded);
    Success(ChannelInfo(labels, seq(|labels|, i requires 0 <= i < |labels| => DefaultUnit(labels[i]))))
  }

  /** Lines 72-103. Labels are decoded with the default UTF-8 (`utf8`); the
      `codec` argument is accepted and has no effect on the result. */
  method GetChanLabels(groups: seq<seq<seq<byte>>>, utf8: Decoder, codec: Decoder)
    returns (r: Result<ChannelInfo, seq<byte>>)
    ensures r == Channels(groups, utf8)
    ensures r.Success? ==> |r.value.labels| == |r.value.units|
  {
    var binaryLabels := FlattenLabels(groups);
    var decoded := DecodeAll(utf8, binaryLabels);
    if decoded.Failure? {
      return Failure(decoded.error);
    }
    var labels := RemoveEmptyLabels(decoded.value);
    var units;
    labels, units := AssignUnits(labels);
    assert units == seq(|labels|, i requires 0 <= i < |labels| => DefaultUnit(labels[i]));
    r := Success(ChannelInfo(labels, units));
  }
}
