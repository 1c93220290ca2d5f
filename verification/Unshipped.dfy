/** Dropping the sections of a page that are marked as not shipped, each up to the next heading. */
module Unshipped {
  import opened Spans
  import opened Strings

  predicate LineStart(text: string, i: nat)
    requires i <= |text|
  {
    i == 0 || text[i - 1] == '\n'
  }

  /** The end of the line that `i` is on. */
  function LineStop(text: string, i: nat): (j: nat)
    requires i <= |text|
    ensures i <= j <= |text| && (j < |text| ==> text[j] == '\n')
    ensures forall k :: i <= k < j ==> text[k] != '\n'
    decreases |text| - i
  {
    if i == |text| || text[i] == '\n' then i
    else LineStop(text, i + 1)
  }

  /** `NEXT_HEADING`: two hashes at the start of a line, and white space. */
  predicate HeadingAt(text: string, i: nat)
    requires i <= |text|
  {
    LineStart(text, i) && i + 2 < |text| && text[i] == '#' && text[i + 1] == '#' && PySpace(text[i + 2])
  }

  /** The first heading from `i` on, or the end of the text. */
  function NextHeading(text: string, i: nat): (h: nat)
    requires i <= |text|
    ensures i <= h <= |text|
    ensures h < |text| ==> HeadingAt(text, h)
    ensures forall k :: i <= k < h ==> !HeadingAt(text, k)
    decreases |text| - i
  {
    if i == |text| || HeadingAt(text, i) then i else NextHeading(text, i + 1)
  }

  /** A marker is a whole line that the pattern of markers accepts. */
  predicate MarkerAt(text: string, i: nat, marker: string -> bool)
    requires i <= |text|
  {
    LineStart(text, i) && marker(text[i..LineStop(text, i)])
  }

  /** All markers, in order. */
  function Markers(text: string, i: nat, marker: string -> bool): (ms: seq<nat>)
    requires i <= |text|
    ensures forall k :: 0 <= k < |ms| ==> i <= ms[k] <= |text| && MarkerAt(text, ms[k], marker)
    ensures forall j, k :: 0 <= j < k < |ms| ==> ms[j] < ms[k]
    ensures forall m :: i <= m <= |text| && MarkerAt(text, m, marker) ==> m in ms
    decreases |text| - i
  {
    var rest := if i == |text| then [] else Markers(text, i + 1, marker);
    if MarkerAt(text, i, marker) then [i] + rest else rest
  }

  lemma {:induction false} LineStopIs(text: string, i: nat, j: nat)
    requires i <= j <= |text| && (j < |text| ==> text[j] == '\n') && forall k :: i <= k < j ==> text[k] != '\n'
    ensures LineStop(text, i) == j
    decreases |text| - i
  {
    if i < j {
      LineStopIs(text, i + 1, j);
    }
  }

  /** A marker stands on a whole line, and the pattern sees that line alone. */
  lemma {:induction false} MarkerIff(before: string, line: string, after: string, marker: string -> bool)
    requires '\n' !in line && (after == "" || after[0] == '\n')
    ensures MarkerAt(before + line + after, |before|, marker) <==>
            (before == "" || before[|before| - 1] == '\n') && marker(line)
  {
    var text, i := before + line + after, |before|;
    assert forall k :: 0 <= k < |line| ==> text[i + k] == line[k];
    assert after != "" ==> text[i + |line|] == '\n';
    LineStopIs(text, i, i + |line|);
    assert text[i..i + |line|] == line;
    assert i > 0 ==> text[i - 1] == before[i - 1];
  }

  /** Where the section of the marker at `m` ends. */
  function SectionEnd(text: string, m: nat): (h: nat)
    requires m <= |text|
    ensures m <= h <= |text|
  {
    NextHeading(text, LineStop(text, m))
  }

  /** A section ends at `h` exactly when `h` is the first heading after the line of its marker,
      or the end of a text without one. */
  lemma {:induction false} SectionIs(text: string, m: nat, h: nat)
    requires m <= |text|
    ensures SectionEnd(text, m) == h <==>
            && LineStop(text, m) <= h <= |text| && (h == |text| || HeadingAt(text, h))
            && forall k :: LineStop(text, m) <= k < h ==> !HeadingAt(text, k)
  {
    var found := SectionEnd(text, m);
    assert LineStop(text, m) <= found <= |text|;
    assert found < |text| ==> HeadingAt(text, found);
  }

  /** A heading is the first place of the text or follows a newline, and reads two hashes and
      white space. */
  lemma {:induction false} HeadingIff(before: string, rest: string)
    ensures HeadingAt(before + rest, |before|) <==>
            && (before == "" || before[|before| - 1] == '\n')
            && exists c, more :: PySpace(c) && rest == "##" + [c] + more
  {
    var text, i := before + rest, |before|;
    assert text[i..] == rest;
    if HeadingAt(text, i) {
      assert rest == "##" + [text[i + 2]] + rest[3..];
    }
    if c, more :| PySpace(c) && rest == "##" + [c] + more {
      assert text[i] == rest[0] && text[i + 1] == rest[1] && text[i + 2] == rest[2];
    }
  }

  /** Every marked section, the skipped ones included. */
  function Sections(text: string, ms: seq<nat>): (spans: seq<Span>)
    requires forall k :: 0 <= k < |ms| ==> ms[k] <= |text|
    ensures |spans| == |ms| && forall k :: 0 <= k < |ms| ==> spans[k] == (ms[k], SectionEnd(text, ms[k]))
  {
    if ms == [] then [] else [(ms[0], SectionEnd(text, ms[0]))] + Sections(text, ms[1..])
  }

  lemma {:induction false} LaterLine(text: string, i: nat, j: nat)
    requires i < j <= |text| && LineStart(text, j)
    ensures LineStop(text, i) < j
  {
    assert text[j - 1] == '\n';
  }

  /** A marker inside a section: its own section ends at the same heading. */
  lemma {:induction false} SkippedEndsThere(text: string, p: nat, m: nat)
    requires p <= m <= |text| && m < SectionEnd(text, p) && LineStart(text, m)
    ensures SectionEnd(text, m) == SectionEnd(text, p)
  {
    var h, h' := SectionEnd(text, p), SectionEnd(text, m);
    if p < m {
      LaterLine(text, p, m);
      if h < |text| {
        LaterLine(text, m, h);
      }
      assert LineStop(text, p) <= LineStop(text, m) <= h;
      assert h < |text| ==> HeadingAt(text, h);
      assert h' < |text| ==> HeadingAt(text, h');
    }
  }

  /** Between the end of what is dropped and the next marker nothing is marked, and from that
      marker to its heading everything is. */
  lemma {:induction false} GapIsOutside(text: string, ms: seq<nat>, k: nat, pos: nat)
    requires forall j :: 0 <= j < |ms| ==> ms[j] <= |text|
    requires forall i, j :: 0 <= i < j < |ms| ==> ms[i] < ms[j]
    requires k <= |ms| && forall j :: 0 <= j < k ==> SectionEnd(text, ms[j]) <= pos
    ensures forall i :: pos <= i && (k < |ms| ==> i < ms[k]) ==> !Covered(Sections(text, ms), i)
    ensures k < |ms| ==> forall i :: ms[k] <= i < SectionEnd(text, ms[k]) ==> Covered(Sections(text, ms), i)
  {
    var spans := Sections(text, ms);
    forall i | pos <= i && (k < |ms| ==> i < ms[k]) ensures !Covered(spans, i) {
      forall j | 0 <= j < |spans| ensures !(spans[j].0 <= i < spans[j].1) {
        if j > k {
          assert ms[k] < ms[j];
        }
      }
    }
    if k < |ms| {
      assert spans[k] == (ms[k], SectionEnd(text, ms[k]));
    }
  }

  /** After `k` markers: all their sections end at `pos` or before it, and one of them there. */
  ghost predicate Passed(text: string, ms: seq<nat>, k: nat, pos: nat) {
    && k <= |ms| && pos <= |text| && AllMarkers(text, ms)
    && (pos == 0 || exists j :: 0 <= j < k && pos == SectionEnd(text, ms[j]))
    && forall j :: 0 <= j < k ==> SectionEnd(text, ms[j]) <= pos
  }

  ghost predicate AllMarkers(text: string, ms: seq<nat>) {
    && (forall j :: 0 <= j < |ms| ==> ms[j] <= |text| && LineStart(text, ms[j]))
    && forall i, j :: 0 <= i < j < |ms| ==> ms[i] < ms[j]
  }

  lemma {:induction false} PassSkipped(text: string, ms: seq<nat>, k: nat, pos: nat)
    requires Passed(text, ms, k, pos) && k < |ms| && ms[k] < pos
    ensures Passed(text, ms, k + 1, pos)
  {
    var j :| 0 <= j < k && pos == SectionEnd(text, ms[j]);
    SkippedEndsThere(text, ms[j], ms[k]);
  }

  lemma {:induction false} PassTaken(text: string, ms: seq<nat>, k: nat, pos: nat)
    requires Passed(text, ms, k, pos) && k < |ms| && pos <= ms[k]
    ensures Passed(text, ms, k + 1, SectionEnd(text, ms[k]))
  {
  }

  lemma {:induction false} TakeSection(text: string, ms: seq<nat>, k: nat, pos: nat)
    requires Passed(text, ms, k, pos) && k < |ms| && pos <= ms[k]
    ensures var spans := Sections(text, ms);
      Outside(text, spans, 0, SectionEnd(text, ms[k])) == Outside(text, spans, 0, pos) + text[pos..ms[k]]
  {
    GapIsOutside(text, ms, k, pos);
    OneCut(text, Sections(text, ms), pos, ms[k], SectionEnd(text, ms[k]));
  }

  lemma {:induction false} TakeRest(text: string, ms: seq<nat>, pos: nat)
    requires Passed(text, ms, |ms|, pos)
    ensures Deleted(text, Sections(text, ms)) == Outside(text, Sections(text, ms), 0, pos) + text[pos..]
  {
    GapIsOutside(text, ms, |ms|, pos);
    hide SectionEnd, Outside, Covered, Sections;
    OutsideSplits(text, Sections(text, ms), 0, pos, |text|);
    NoneCovered(text, Sections(text, ms), pos, |text|);
    assert text[pos..|text|] == text[pos..];
  }

  /** `drop_unshipped`: the union of all marked sections is deleted, though a marker inside a
      dropped one is skipped. */
  method DropUnshipped(text: string, marker: string -> bool) returns (out: string)
    ensures out == Deleted(text, Sections(text, Markers(text, 0, marker)))
  {
    var ms := Markers(text, 0, marker);
    out := "";
    var pos: nat := 0;
    for k := 0 to |ms|
      invariant Passed(text, ms, k, pos) && out == Outside(text, Sections(text, ms), 0, pos)
    {
      var m := ms[k];
      if m < pos {
        PassSkipped(text, ms, k, pos);
      } else {
        PassTaken(text, ms, k, pos);
        TakeSection(text, ms, k, pos);
        out := out + text[pos..m];
        pos := SectionEnd(text, m);
      }
    }
    TakeRest(text, ms, pos);
    out := out + text[pos..];
  }
}
