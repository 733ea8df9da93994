/**
 * The generated-at marker of the documentation README: replace the first
 * `<!-- GENERATED_AT:... -->` comment, or insert one after the first heading.
 */
module Docs {
  import opened Wrappers
  import opened Text

  const MARKER_START: string := "<!-- GENERATED_AT:"
  const MARKER_END: string := "-->"

  /** The marker comment for timestamp `ts`. */
  function Marker(ts: string): string {
    MARKER_START + ts + " -->"
  }

  /**
   * `content[a..b]` is a match of `/<!-- GENERATED_AT:.*?-->/s`: the start
   * text at `a`, then anything (newlines included), then the first end text
   * after it, which ends at `b`.
   */
  ghost predicate IsMatch(content: string, a: nat, b: nat) {
    && OccursAt(content, MARKER_START, a)
    && a + |MARKER_START| + |MARKER_END| <= b
    && OccursAt(content, MARKER_END, b - |MARKER_END|)
    && forall e: nat :: a + |MARKER_START| <= e < b - |MARKER_END| ==> !OccursAt(content, MARKER_END, e)
  }

  /** The regex's first match, as the bounds of the matched text. */
  function FindMarker(content: string): (r: Option<(nat, nat)>)
    ensures r.Some? ==> IsMatch(content, r.value.0, r.value.1)
    // Leftmost: no match starts earlier.
    ensures r.Some? ==> forall a: nat, b: nat :: a < r.value.0 ==> !IsMatch(content, a, b)
    ensures r.None? ==> forall a: nat, b: nat :: !IsMatch(content, a, b)
  {
    match IndexOf(content, MARKER_START)
    case None => None
    case Some(a) =>
      match IndexFrom(content, MARKER_END, a + |MARKER_START|)
      case None => None
      case Some(e) => Some((a, e + |MARKER_END|))
  }

  /** The replace branch: the match becomes the new marker, all other text is kept. */
  function ReplaceMarker(content: string, a: nat, b: nat, ts: string): string
    requires a <= b <= |content|
  {
    content[..a] + Marker(ts) + content[b..]
  }

  /** `content.split(/\r?\n/)`. */
  function SplitLines(s: string): (ls: seq<string>)
    ensures |ls| >= 1
    // The separators are gone: no line holds a newline.
    ensures forall i :: 0 <= i < |ls| ==> '\n' !in ls[i]
  {
    if s == [] then [""]
    else if s[0] == '\n' then [""] + SplitLines(s[1..])
    else if 2 <= |s| && s[0] == '\r' && s[1] == '\n' then [""] + SplitLines(s[2..])
    else
      var rest := SplitLines(s[1..]);
      [[s[0]] + rest[0]] + rest[1..]
  }

  /** `lines.join('\n')`. */
  function Join(ls: seq<string>): string {
    if |ls| == 0 then ""
    else if |ls| == 1 then ls[0]
    else ls[0] + "\n" + Join(ls[1..])
  }

  /** Every "\r\n" turned into "\n". */
  function Normalize(s: string): string {
    if s == [] then ""
    else if 2 <= |s| && s[0] == '\r' && s[1] == '\n' then "\n" + Normalize(s[2..])
    else [s[0]] + Normalize(s[1..])
  }

  /** Prepending a character to the first line prepends it to the joined text. */
  lemma JoinCons(c: char, x: string, t: seq<string>)
    ensures Join([[c] + x] + t) == [c] + Join([x] + t)
  {
    if |t| > 0 {
      assert ([[c] + x] + t)[1..] == t;
      assert ([x] + t)[1..] == t;
    }
  }

  /** Splitting and rejoining keeps the text but turns "\r\n" endings into "\n". */
  lemma {:induction false} JoinSplit(s: string)
    ensures Join(SplitLines(s)) == Normalize(s)
    decreases |s|
  {
    if s == [] {
    } else if s[0] == '\n' {
      JoinSplit(s[1..]);
      assert ([""] + SplitLines(s[1..]))[1..] == SplitLines(s[1..]);
    } else if 2 <= |s| && s[0] == '\r' && s[1] == '\n' {
      JoinSplit(s[2..]);
      assert ([""] + SplitLines(s[2..]))[1..] == SplitLines(s[2..]);
    } else {
      var rest := SplitLines(s[1..]);
      JoinSplit(s[1..]);
      JoinCons(s[0], rest[0], rest[1..]);
      assert [rest[0]] + rest[1..] == rest;
    }
  }

  /** The line starts with `#`. */
  predicate IsHeading(line: string) {
    |line| > 0 && line[0] == '#'
  }

  function Min(a: nat, b: nat): nat {
    if a <= b then a else b
  }

  /** Where the marker line goes: after the first heading among the first ten lines, else at the top. */
  ghost predicate IsInsertSlot(lines: seq<string>, k: nat) {
    && k <= Min(10, |lines|)
    && (k > 0 ==> IsHeading(lines[k - 1]) && forall j :: 0 <= j < k - 1 ==> !IsHeading(lines[j]))
    && (k == 0 ==> forall j :: 0 <= j < Min(10, |lines|) ==> !IsHeading(lines[j]))
  }

  /** There is one slot for any lines. */
  lemma SlotUnique(lines: seq<string>, k1: nat, k2: nat)
    requires IsInsertSlot(lines, k1) && IsInsertSlot(lines, k2)
    ensures k1 == k2
  {
  }

  /** The heading scan of the insert branch. */
  method FindInsertAt(lines: seq<string>) returns (insertAt: nat)
    ensures IsInsertSlot(lines, insertAt)
  {
    insertAt := 0;
    var i := 0;
    var bound := Min(10, |lines|);
    while i < bound
      invariant 0 <= i <= bound
      invariant forall j :: 0 <= j < i ==> !IsHeading(lines[j])
    {
      if IsHeading(lines[i]) {
        insertAt := i + 1;
        break;
      }
      i := i + 1;
    }
  }

  /** Inserting `m` as a line puts `m` into the joined text. */
  lemma JoinContains(before: seq<string>, m: string, after: seq<string>)
    ensures Contains(Join(before + [m] + after), m)
    decreases |before|
  {
    var ls := before + [m] + after;
    if |before| == 0 {
      assert ls == [m] + after;
      var j := Join(ls);
      assert j[0..|m|] == m;
      assert OccursAt(j, m, 0);
    } else {
      assert ls[1..] == before[1..] + [m] + after;
      JoinContains(before[1..], m, after);
      var tail := Join(ls[1..]);
      var i: nat :| i <= |tail| && OccursAt(tail, m, i);
      var j := Join(ls);
      var off := |before[0]| + 1;
      assert j == before[0] + "\n" + tail;
      assert j[off + i..off + i + |m|] == tail[i..i + |m|];
      assert OccursAt(j, m, off + i);
    }
  }

  /**
   * The transform inside updateDocs, on the file's text and the timestamp.
   * The timestamp is an ISO date string, so it holds no `$`: the marker is
   * inserted literally, with no replacement pattern to expand.
   */
  method UpdateDocsContent(content: string, ts: string) returns (out: string)
    requires '$' !in ts
    ensures match FindMarker(content)
      case Some((a, b)) => a <= b <= |content| && out == ReplaceMarker(content, a, b, ts)
      case None => exists k: nat :: (IsInsertSlot(SplitLines(content), k) &&
        out == Join(SplitLines(content)[..k] + [Marker(ts)] + SplitLines(content)[k..]))
    ensures Contains(out, Marker(ts))
    // The next update finds this marker and takes the replace branch.
    ensures FindMarker(out).Some?
  {
    var marker := Marker(ts);
    var found := FindMarker(content);
    if found.Some? {
      var (a, b) := found.value;
      out := content[..a] + marker + content[b..];
      assert out[a..a + |marker|] == marker;
      assert OccursAt(out, marker, a);
    } else {
      var lines := SplitLines(content);
      ghost var original := lines;
      var insertAt := FindInsertAt(lines);
      lines := lines[..insertAt] + [marker] + lines[insertAt..];
      out := Join(lines);
      JoinContains(original[..insertAt], marker, original[insertAt..]);
    }
    MarkerIsFound(out, ts);
  }

  /** Text holding a marker always has a match, so the next update takes the replace branch. */
  lemma MarkerIsFound(s: string, ts: string)
    requires Contains(s, Marker(ts))
    ensures FindMarker(s).Some?
  {
    var m := Marker(ts);
    var i: nat :| i <= |s| && OccursAt(s, m, i);
    assert OccursAt(s, MARKER_START, i) by {
      assert s[i..i + |MARKER_START|] == m[..|MARKER_START|];
    }
    var e := i + |MARKER_START| + |ts| + 1;
    assert OccursAt(s, MARKER_END, e) by {
      assert s[e..e + |MARKER_END|] == m[|MARKER_START| + |ts| + 1..];
    }
    var a := IndexOf(s, MARKER_START);
    assert a.Some?;
    assert a.value <= i;
    assert IndexFrom(s, MARKER_END, a.value + |MARKER_START|).Some?;
  }
}
