/** Reading the kernel's mount table and ordering unmounts
    (src/core/install.rs:1907-1941). */
module Mounts {
  import opened Wrappers
  import opened Text
  import opened Sorting

  // --- octal escapes -----------------------------------------------------------

  /** The four characters the kernel escapes in a mountpoint. */
  const SPECIALS: set<char> := {' ', '\t', '\n', '\\'}

  function Code(c: char): (r: string)
    requires c in SPECIALS
    ensures |r| == 4 && r[0] == '\\' && r[1] != '\\' && r[2] != '\\' && r[3] != '\\'
  {
    if c == ' ' then "\\040" else if c == '\t' then "\\011" else if c == '\n' then "\\012" else "\\134"
  }

  /** `s` with the characters of `rest` escaped. */
  function EscapeSome(s: string, rest: set<char>): string
    requires rest <= SPECIALS
  {
    if s == [] then []
    else (if s[0] in rest then Code(s[0]) else [s[0]]) + EscapeSome(s[1..], rest)
  }

  /** What the kernel writes for a mountpoint, in one pass. */
  function Escape(s: string): string {
    EscapeSome(s, SPECIALS)
  }

  /** `str::replace` of one pattern by one character, left to right. */
  function Replace(s: string, pattern: string, with: char): string
    requires pattern != []
  {
    if s == [] then []
    else if StartsWith(s, pattern) then [with] + Replace(s[|pattern|..], pattern, with)
    else [s[0]] + Replace(s[1..], pattern, with)
  }

  /** `unescape_mount`: four passes, the backslash last. */
  function Unescape(s: string): string {
    Replace(Replace(Replace(Replace(s, "\\040", ' '), "\\011", '\t'), "\\012", '\n'), "\\134", '\\')
  }

  lemma CodesDiffer(a: char, b: char)
    requires a in SPECIALS && b in SPECIALS && a != b
    ensures Code(a) != Code(b)
  {
    assert "\\040"[2] == '4' && "\\011"[2] == '1' && "\\012"[2] == '1' && "\\134"[2] == '3';
    assert "\\011"[3] == '1' && "\\012"[3] == '2';
  }

  lemma SkipPlain(s: string, pattern: string, with: char)
    requires pattern != [] && s != [] && s[0] != pattern[0]
    ensures Replace(s, pattern, with) == [s[0]] + Replace(s[1..], pattern, with)
  {
  }

  lemma SkipFour(t: string, pattern: string, with: char)
    requires |t| >= 4 && |pattern| == 4 && t[..4] != pattern
    requires t[1] != pattern[0] && t[2] != pattern[0] && t[3] != pattern[0]
    ensures Replace(t, pattern, with) == t[..4] + Replace(t[4..], pattern, with)
  {
    assert Replace(t, pattern, with) == [t[0]] + Replace(t[1..], pattern, with);
    hide Replace;
    assert t[1..][1..] == t[2..] && t[2..][1..] == t[3..] && t[3..][1..] == t[4..];
    SkipPlain(t[1..], pattern, with);
    SkipPlain(t[2..], pattern, with);
    SkipPlain(t[3..], pattern, with);
    assert t[..4] == [t[0], t[1], t[2], t[3]];
  }

  /** A pass looking for one code steps over another code unchanged. */
  lemma SkipOtherCode(a: char, b: char, tail: string)
    requires a in SPECIALS && b in SPECIALS && a != b
    ensures Replace(Code(a) + tail, Code(b), b) == Code(a) + Replace(tail, Code(b), b)
  {
    var t := Code(a) + tail;
    CodesDiffer(a, b);
    assert t[..4] == Code(a) && t[4..] == tail;
    assert t[1] == Code(a)[1] && t[2] == Code(a)[2] && t[3] == Code(a)[3];
    SkipFour(t, Code(b), b);
  }

  /** One pass undoes the escaping of one character, as long as a literal backslash is
      still escaped: that is why the backslash pass has to come last. */
  lemma {:induction false} PassUndoesOne(s: string, rest: set<char>, c: char)
    requires rest <= SPECIALS && c in rest && '\\' in rest
    ensures Replace(EscapeSome(s, rest), Code(c), c) == EscapeSome(s, rest - {c})
  {
    if s != [] {
      var tail := EscapeSome(s[1..], rest);
      PassUndoesOne(s[1..], rest, c);
      if s[0] == c {
        assert (Code(c) + tail)[..4] == Code(c);
        assert (Code(c) + tail)[4..] == tail;
      } else if s[0] in rest {
        SkipOtherCode(s[0], c, tail);
      } else {
        assert EscapeSome(s, rest)[1..] == tail;
        SkipPlain(EscapeSome(s, rest), Code(c), c);
      }
    }
  }

  lemma {:induction false} NothingToEscape(s: string)
    ensures EscapeSome(s, {}) == s
  {
    if s != [] {
      NothingToEscape(s[1..]);
      assert s == [s[0]] + s[1..];
    }
  }

  /** The four passes invert the kernel's escaping for every mountpoint, including one
      that contains the text of an escape. */
  lemma UnescapeInvertsEscape(s: string)
    ensures Unescape(Escape(s)) == s
  {
    PassUndoesOne(s, SPECIALS, ' ');
    PassUndoesOne(s, SPECIALS - {' '}, '\t');
    PassUndoesOne(s, SPECIALS - {' '} - {'\t'}, '\n');
    PassUndoesOne(s, SPECIALS - {' '} - {'\t'} - {'\n'}, '\\');
    assert SPECIALS - {' '} - {'\t'} - {'\n'} - {'\\'} == {};
    NothingToEscape(s);
  }

  // --- lines and fields ----------------------------------------------------------

  /** The characters `split_whitespace` splits at. */
  predicate IsSpace(c: char) {
    || c == ' ' || '\t' <= c <= '\r' || c == '\U{85}' || c == '\U{A0}' || c == '\U{1680}'
    || '\U{2000}' <= c <= '\U{200A}' || c == '\U{2028}' || c == '\U{2029}' || c == '\U{202F}'
    || c == '\U{205F}' || c == '\U{3000}'
  }

  /** How many leading characters satisfy `IsSpace` exactly as `space` says. */
  function Span(s: string, space: bool): (n: nat)
    ensures n <= |s|
  {
    if s == [] || IsSpace(s[0]) != space then 0 else 1 + Span(s[1..], space)
  }

  /** `split_whitespace().nth(1)`. */
  function SecondField(line: string): Option<string> {
    var first := line[Span(line, true)..];
    var gap := first[Span(first, false)..];
    var second := gap[Span(gap, true)..];
    var field := second[..Span(second, false)];
    if field == [] then None else Some(field)
  }

  function LineEnd(s: string): (n: nat)
    ensures n <= |s|
    ensures forall k :: 0 <= k < n ==> s[k] != '\n'
    ensures n < |s| ==> s[n] == '\n'
  {
    if s == [] || s[0] == '\n' then 0 else 1 + LineEnd(s[1..])
  }

  function ChopCr(line: string): string {
    if line != [] && line[|line| - 1] == '\r' then line[..|line| - 1] else line
  }

  /** `str::lines`. */
  function Lines(s: string): seq<string> {
    if s == [] then []
    else
      var n := LineEnd(s);
      [ChopCr(s[..n])] + if n < |s| then Lines(s[n + 1..]) else []
  }

  function PointsOf(lines: seq<string>): seq<string> {
    if lines == [] then []
    else
      (match SecondField(lines[0]) case Some(f) => [Unescape(f)] case None => [])
      + PointsOf(lines[1..])
  }

  predicate AtOrUnder(point: string, dir: string) {
    point == dir || StartsWith(point, dir + "/")
  }

  /** A path cut at every slash. */
  function Segments(path: string): (r: seq<string>)
    ensures r != []
  {
    if path == [] then [[]]
    else
      var rest := Segments(path[1..]);
      if path[0] == '/' then [[]] + rest else [[path[0]] + rest[0]] + rest[1..]
  }

  lemma {:induction false} SegmentsOfJoined(dir: string, rest: string)
    ensures Segments(dir + "/" + rest) == Segments(dir) + Segments(rest)
  {
    if dir == [] {
      assert dir + "/" + rest == "/" + rest && ("/" + rest)[1..] == rest;
    } else {
      assert (dir + "/" + rest)[1..] == dir[1..] + "/" + rest;
      SegmentsOfJoined(dir[1..], rest);
    }
  }

  lemma FirstSegment(path: string)
    requires path != []
    ensures path[0] == '/' <==> Segments(path)[0] == []
    ensures path[0] != '/' ==> Segments(path)[0][0] == path[0]
  {
  }

  lemma {:induction false} SegmentsBegin(dir: string, point: string)
    requires Segments(dir) <= Segments(point)
    ensures AtOrUnder(point, dir)
  {
    if dir == [] {
      assert Segments(point)[0] == [];
      if point != [] {
        assert point[0] == '/';
        assert [] + "/" == "/" && point[..1] == "/";
      }
    } else {
      assert |Segments(point)| >= |Segments(dir)| && Segments(point)[0] == Segments(dir)[0];
      FirstSegment(dir);
      assert point != [];
      FirstSegment(point);
      assert point[0] == dir[0];
      assert Segments(dir[1..]) <= Segments(point[1..]) by {
        if dir[0] == '/' {
          assert Segments(dir)[1..] == Segments(dir[1..]) && Segments(point)[1..] == Segments(point[1..]);
        } else {
          assert Segments(dir)[0][1..] == Segments(dir[1..])[0] && Segments(point)[0][1..] == Segments(point[1..])[0];
          assert Segments(dir)[1..] == Segments(dir[1..])[1..] && Segments(point)[1..] == Segments(point[1..])[1..];
        }
      }
      SegmentsBegin(dir[1..], point[1..]);
      assert dir == [dir[0]] + dir[1..] && point == [point[0]] + point[1..];
      assert dir + "/" == [dir[0]] + (dir[1..] + "/");
    }
  }

  /** At or under a directory means beginning with all its segments, however many levels
      down. */
  lemma AtOrUnderIs(point: string, dir: string)
    ensures AtOrUnder(point, dir) <==> Segments(dir) <= Segments(point)
  {
    if StartsWith(point, dir + "/") {
      var rest := point[|dir| + 1..];
      assert point == dir + "/" + rest;
      SegmentsOfJoined(dir, rest);
    }
    if Segments(dir) <= Segments(point) {
      SegmentsBegin(dir, point);
    }
  }

  function Keep(points: seq<string>, dir: string): seq<string> {
    if points == [] then []
    else (if AtOrUnder(points[0], dir) then [points[0]] else []) + Keep(points[1..], dir)
  }

  function Dedup(s: seq<string>): seq<string> {
    if |s| < 2 then s
    else if s[0] == s[1] then Dedup(s[1..])
    else [s[0]] + Dedup(s[1..])
  }

  /** How many bytes a string takes in UTF-8. */
  function ByteLength(s: string): nat {
    if s == [] then 0
    else (if s[0] < '\U{80}' then 1 else if s[0] < '\U{800}' then 2 else if s[0] < '\U{10000}' then 3 else 4) + ByteLength(s[1..])
  }

  predicate LongerFirst(a: string, b: string) {
    ByteLength(a) >= ByteLength(b)
  }

  /** `mountpoints_in`. */
  function MountpointsIn(mounts: string, dir: string): seq<string> {
    Ordered(PointsOf(Lines(mounts)), dir)
  }

  /** Filter, sort, remove repetitions, then sort the longest first. */
  function Ordered(points: seq<string>, dir: string): seq<string> {
    SortBy(Dedup(SortBy(Keep(points, dir), AtMost)), LongerFirst)
  }

  // --- the kernel's table reads back -----------------------------------------------

  datatype Mount = Mount(device: string, point: string, rest: string) {
    /** What holds of every line the kernel writes, provided a mountpoint holds no
        white space but what the kernel escapes. */
    ghost predicate Plain() {
      && device != [] && (forall c :: c in device ==> !IsSpace(c))
      && point != [] && (forall c :: c in point ==> IsSpace(c) ==> c in SPECIALS)
      && (forall c :: c in rest ==> c != '\n')
    }

    function Line(): string {
      device + " " + Escape(point) + " " + rest
    }
  }

  function Render(table: seq<Mount>): string {
    if table == [] then [] else table[0].Line() + "\n" + Render(table[1..])
  }

  lemma {:induction false} EscapedHasNoSpace(s: string)
    requires forall c :: c in s ==> IsSpace(c) ==> c in SPECIALS
    ensures forall c :: c in Escape(s) ==> !IsSpace(c)
    ensures s != [] ==> Escape(s) != []
  {
    if s != [] {
      EscapedHasNoSpace(s[1..]);
      CodeHasNoSpace(s[0]);
      assert forall c :: c in s[1..] ==> c in s;
    }
  }

  lemma CodeHasNoSpace(c: char)
    ensures c in SPECIALS ==> forall d :: d in Code(c) ==> !IsSpace(d)
  {
    assert forall d :: d in "\\040" ==> d == '\\' || d == '0' || d == '4';
    assert forall d :: d in "\\011" ==> d == '\\' || d == '0' || d == '1';
    assert forall d :: d in "\\012" ==> d == '\\' || d == '0' || d == '1' || d == '2';
    assert forall d :: d in "\\134" ==> d == '\\' || d == '1' || d == '3' || d == '4';
  }

  lemma {:induction false} SpanOfWord(word: string, tail: string, space: bool)
    requires forall c :: c in word ==> IsSpace(c) == space
    requires tail == [] || IsSpace(tail[0]) != space
    ensures Span(word + tail, space) == |word|
  {
    if word == [] {
      assert word + tail == tail;
    } else {
      assert (word + tail)[1..] == word[1..] + tail;
      SpanOfWord(word[1..], tail, space);
    }
  }

  lemma NewlineIsSpace()
    ensures IsSpace('\n')
  {
  }

  lemma SpaceIsSpace()
    ensures IsSpace(' ')
  {
  }

  lemma SkipSpan(word: string, tail: string, space: bool)
    requires forall c :: c in word ==> IsSpace(c) == space
    requires tail == [] || IsSpace(tail[0]) != space
    ensures (word + tail)[Span(word + tail, space)..] == tail
    ensures (word + tail)[..Span(word + tail, space)] == word
  {
    SpanOfWord(word, tail, space);
    hide Span, IsSpace;
  }

  lemma SecondOfThree(a: string, b: string, tail: string)
    requires a != [] && b != [] && (forall c :: c in a ==> !IsSpace(c)) && (forall c :: c in b ==> !IsSpace(c))
    requires tail == [] || IsSpace(tail[0])
    ensures SecondField(a + (" " + (b + tail))) == Some(b)
  {
    SpaceIsSpace();
    assert a[0] in a && b[0] in b;
    hide IsSpace, Span;
    var second := b + tail;
    var gap := " " + second;
    var line := a + gap;
    assert second[0] == b[0] && gap[0] == ' ' && line[0] == a[0];
    SkipSpan([], line, true);
    assert [] + line == line;
    SkipSpan(a, gap, false);
    SkipSpan(" ", second, true);
    SkipSpan(b, tail, false);
  }

  lemma LineShape(m: Mount)
    requires m.device != [] && m.point != []
    ensures ChopCr(m.Line()) == m.device + (" " + (Escape(m.point) + ChopCr(" " + m.rest)))
  {
    hide Escape;
    var e := Escape(m.point);
    var tail := " " + m.rest;
    var line := m.device + " " + e + " " + m.rest;
    assert line == m.device + " " + e + tail;
    assert line[|line| - 1] == tail[|tail| - 1];
    assert ChopCr(line) == m.device + " " + e + ChopCr(tail);
    assert m.device + " " + e + ChopCr(tail) == m.device + (" " + (e + ChopCr(tail)));
  }

  lemma LineSecondField(m: Mount)
    requires m.device != [] && (forall c :: c in m.device ==> !IsSpace(c)) && m.point != []
    requires forall c :: c in m.point ==> IsSpace(c) ==> c in SPECIALS
    ensures SecondField(ChopCr(m.Line())) == Some(Escape(m.point))
  {
    EscapedHasNoSpace(m.point);
    LineShape(m);
    SpaceIsSpace();
    hide IsSpace, Escape, SecondField, Mount.Line;
    SecondOfThree(m.device, Escape(m.point), ChopCr(" " + m.rest));
  }

  lemma {:induction false} SpanIsUniform(s: string, space: bool)
    ensures forall k :: 0 <= k < Span(s, space) ==> IsSpace(s[k]) == space
  {
    hide IsSpace;
    if s != [] && IsSpace(s[0]) == space {
      SpanIsUniform(s[1..], space);
    }
  }

  /** A line of a single word has no second field. */
  lemma OneWordHasNone(word: string)
    requires forall c :: c in word ==> !IsSpace(c)
    ensures SecondField(word) == None
  {
    assert word + [] == word && [] + word == word;
    if word != [] {
      assert word[0] in word;
    }
    SpanOfWord([], word, true);
    SpanOfWord(word, [], false);
    hide IsSpace;
  }

  lemma FieldHasNoSpace(line: string)
    requires SecondField(line).Some?
    ensures forall c :: c in SecondField(line).value ==> !IsSpace(c)
  {
    var first := line[Span(line, true)..];
    var gap := first[Span(first, false)..];
    SpanIsUniform(gap[Span(gap, true)..], false);
    hide IsSpace, Span;
  }

  lemma {:induction false} UnescapedStays(s: string, c: char)
    requires c in s && c !in SPECIALS
    ensures c in Escape(s)
  {
    if s[0] != c {
      UnescapedStays(s[1..], c);
    }
  }

  /** A mountpoint is read back exactly when the only white space in it is the kind the
      kernel escapes; a no-break space, say, cuts it short. */
  lemma PointReadsBackExactly(m: Mount)
    requires m.device != [] && (forall c :: c in m.device ==> !IsSpace(c)) && m.point != []
    ensures SecondField(ChopCr(m.Line())) == Some(Escape(m.point))
            <==> forall c :: c in m.point ==> IsSpace(c) ==> c in SPECIALS
  {
    if forall c :: c in m.point ==> IsSpace(c) ==> c in SPECIALS {
      LineSecondField(m);
    } else {
      var c :| c in m.point && IsSpace(c) && c !in SPECIALS;
      UnescapedStays(m.point, c);
      if SecondField(ChopCr(m.Line())).Some? {
        FieldHasNoSpace(ChopCr(m.Line()));
      }
    }
  }

  lemma {:induction false} EscapeJoins(a: string, b: string)
    ensures Escape(a + b) == Escape(a) + Escape(b)
  {
    if a == [] {
      assert a + b == b;
    } else {
      assert (a + b)[1..] == a[1..] + b;
      EscapeJoins(a[1..], b);
    }
  }

  /** A mountpoint with other white space is read up to its first such character. */
  lemma PointIsCut(m: Mount, head: string, c: char, tail: string)
    requires m.device != [] && (forall d :: d in m.device ==> !IsSpace(d))
    requires m.point == head + [c] + tail && head != []
    requires (forall d :: d in head ==> IsSpace(d) ==> d in SPECIALS) && IsSpace(c) && c !in SPECIALS
    ensures SecondField(ChopCr(m.Line())) == Some(Escape(head))
  {
    EscapeJoins(head + [c], tail);
    EscapeJoins(head, [c]);
    assert EscapeSome([c], SPECIALS) == [c] + EscapeSome([], SPECIALS) == [c];
    EscapedHasNoSpace(head);
    LineShape(m);
    hide IsSpace, Escape, EscapeSome, SecondField, Mount.Line, ChopCr;
    var rest := [c] + Escape(tail) + ChopCr(" " + m.rest);
    assert Escape(head) + [c] + Escape(tail) + ChopCr(" " + m.rest) == Escape(head) + rest;
    assert rest[0] == c;
    SecondOfThree(m.device, Escape(head), rest);
  }

  lemma {:induction false} EscapedHasNoNewline(s: string)
    ensures '\n' !in Escape(s)
  {
    if s != [] {
      EscapedHasNoNewline(s[1..]);
      CodeHasNoSpace(s[0]);
      assert Escape(s) == (if s[0] in SPECIALS then Code(s[0]) else [s[0]]) + Escape(s[1..]);
    }
  }

  lemma LineHasNoNewline(m: Mount)
    requires '\n' !in m.device && '\n' !in m.rest
    ensures forall k :: 0 <= k < |m.Line()| ==> m.Line()[k] != '\n'
  {
    EscapedHasNoNewline(m.point);
    var e := Escape(m.point);
    var line := m.device + " " + e + " " + m.rest;
    forall k | 0 <= k < |line|
      ensures line[k] != '\n'
    {
      assert line[k] in m.device || line[k] == ' ' || line[k] in e || line[k] in m.rest;
    }
  }

  lemma {:induction false} LineEndOf(line: string, tail: string)
    requires forall k :: 0 <= k < |line| ==> line[k] != '\n'
    ensures LineEnd(line + "\n" + tail) == |line|
  {
    if line == [] {
      assert line + "\n" + tail == "\n" + tail;
    } else {
      assert (line + "\n" + tail)[1..] == line[1..] + "\n" + tail;
      LineEndOf(line[1..], tail);
    }
  }

  lemma FirstLine(line: string, tail: string)
    requires forall k :: 0 <= k < |line| ==> line[k] != '\n'
    ensures Lines(line + "\n" + tail) == [ChopCr(line)] + Lines(tail)
  {
    var text := line + "\n" + tail;
    LineEndOf(line, tail);
    assert text[..|line|] == line && text[|line| + 1..] == tail;
  }

  /** Lines end at a newline, with or without a carriage return before it. */
  lemma FirstLineIs(line: string, tail: string)
    requires '\n' !in line && (line == [] || line[|line| - 1] != '\r')
    ensures Lines(line + "\n" + tail) == [line] + Lines(tail)
    ensures Lines(line + "\r\n" + tail) == [line] + Lines(tail)
  {
    var ended := line + "\r";
    assert ChopCr(line) == line && ended[..|line|] == line && ChopCr(ended) == line;
    assert forall k :: 0 <= k < |ended| ==> ended[k] != '\n';
    hide Lines, ChopCr;
    FirstLine(line, tail);
    FirstLine(ended, tail);
    assert line + "\r\n" + tail == ended + "\n" + tail;
  }

  lemma FirstPoint(line: string, lines: seq<string>, field: string)
    requires SecondField(line) == Some(field)
    ensures PointsOf([line] + lines) == [Unescape(field)] + PointsOf(lines)
  {
    hide SecondField, Unescape;
    assert ([line] + lines)[1..] == lines;
  }

  /** The parser recovers every mountpoint of the kernel's table, in order. */
  lemma {:induction false} TableReadsBack(table: seq<Mount>)
    requires forall i :: 0 <= i < |table| ==> table[i].Plain()
    ensures PointsOf(Lines(Render(table))) == seq(|table|, i requires 0 <= i < |table| => table[i].point)
  {
    hide SecondField, Unescape, Lines, Escape, Mount.Line, IsSpace;
    if table == [] {
      NoLines();
    } else {
      var line := table[0].Line();
      NewlineIsSpace();
      LineHasNoNewline(table[0]);
      FirstLine(line, Render(table[1..]));
      LineSecondField(table[0]);
      FirstPoint(ChopCr(line), Lines(Render(table[1..])), Escape(table[0].point));
      UnescapeInvertsEscape(table[0].point);
      TableReadsBack(table[1..]);
    }
  }

  lemma NoLines()
    ensures Lines([]) == [] && PointsOf([]) == []
  {
  }

  // --- the unmount order -----------------------------------------------------------

  lemma {:induction false} KeepIs(points: seq<string>, dir: string, p: string)
    ensures p in Keep(points, dir) <==> p in points && AtOrUnder(p, dir)
  {
    if points != [] {
      KeepIs(points[1..], dir, p);
    }
  }

  lemma {:induction false} DedupKeeps(s: seq<string>, p: string)
    ensures p in Dedup(s) <==> p in s
    ensures s != [] ==> Dedup(s) != [] && Dedup(s)[0] == s[0]
  {
    if |s| >= 2 {
      assert s == [s[0]] + s[1..];
      DedupKeeps(s[1..], p);
    }
  }

  ghost predicate Distinct(s: seq<string>) {
    forall i, j :: 0 <= i < j < |s| ==> s[i] != s[j]
  }

  lemma {:induction false} DedupDistinct(s: seq<string>)
    requires Sorted(s, AtMost)
    ensures Distinct(Dedup(s))
  {
    if |s| >= 2 {
      DedupDistinct(s[1..]);
      if s[0] != s[1] {
        var t := Dedup(s[1..]);
        forall j | 0 <= j < |t|
          ensures t[j] != s[0]
        {
          DedupKeeps(s[1..], t[j]);
          assert t[j] in s[1..];
          var k :| 0 <= k < |s[1..]| && s[1..][k] == t[j];
          assert AtMost(s[0], s[1]) && AtMost(s[1], s[k + 1]) by {
            assert k == 0 ==> s[1] == s[k + 1];
            LessIrreflexive(s[1]);
          }
          NotBefore(s[0], s[1], s[k + 1]);
        }
      }
    }
  }

  lemma LessIrreflexive(a: string)
    ensures !Less(a, a)
  {
    if Less(a, a) {
      LessAsymmetric(a, a);
    }
  }

  lemma NotBefore(a: string, b: string, c: string)
    requires AtMost(a, b) && AtMost(b, c) && a != b
    ensures c != a
  {
    LessTotal(a, b);
    if c == a {
      LessAsymmetric(a, b);
    }
  }

  lemma AtMostTotal()
    ensures TotalOrder(AtMost)
  {
    forall a: string, b: string
      ensures AtMost(a, b) || AtMost(b, a)
    {
      if Less(b, a) {
        LessAsymmetric(b, a);
      }
    }
    forall a: string, b: string, c: string | AtMost(a, b) && AtMost(b, c)
      ensures AtMost(a, c)
    {
      AtMostTransitive(a, b, c);
    }
  }

  lemma DistinctBySets(a: seq<string>, b: seq<string>)
    requires Distinct(a) && multiset(a) == multiset(b)
    ensures Distinct(b)
  {
    forall i, j | 0 <= i < j < |b|
      ensures b[i] != b[j]
    {
      if b[i] == b[j] {
        TwiceInMultiset(b, i, j);
        OnceInMultiset(a, b[i]);
      }
    }
  }

  lemma TwiceInMultiset(s: seq<string>, i: nat, j: nat)
    requires i < j < |s| && s[i] == s[j]
    ensures multiset(s)[s[i]] >= 2
  {
    assert s == s[..j] + [s[j]] + s[j + 1..];
    assert s[..j][i] == s[i];
    assert multiset(s[..j])[s[i]] >= 1;
  }

  lemma {:induction false} OnceInMultiset(s: seq<string>, x: string)
    requires Distinct(s)
    ensures multiset(s)[x] <= 1
  {
    if s != [] {
      assert s == [s[0]] + s[1..];
      OnceInMultiset(s[1..], x);
      if x == s[0] {
        assert x !in s[1..];
        assert multiset(s[1..])[x] == 0;
      }
    }
  }

  lemma {:induction false} ByteLengthJoins(a: string, b: string)
    ensures ByteLength(a + b) == ByteLength(a) + ByteLength(b)
  {
    if a == [] {
      assert a + b == b;
    } else {
      assert (a + b)[1..] == a[1..] + b;
      ByteLengthJoins(a[1..], b);
    }
  }

  lemma LongerIsNotUnder(r: seq<string>)
    requires Sorted(r, LongerFirst)
    ensures forall i, j :: 0 <= i < j < |r| ==> !StartsWith(r[j], r[i] + "/")
  {
    forall i, j | 0 <= i < j < |r|
      ensures !StartsWith(r[j], r[i] + "/")
    {
      assert LongerFirst(r[i], r[j]);
      if StartsWith(r[j], r[i] + "/") {
        var more := r[j][|r[i]| + 1..];
        assert r[j] == r[i] + ("/" + more);
        ByteLengthJoins(r[i], "/" + more);
      }
    }
  }

  lemma OrderedContents(points: seq<string>, dir: string, p: string)
    ensures p in Ordered(points, dir) <==> p in points && AtOrUnder(p, dir)
  {
    var kept := Keep(points, dir);
    var sorted := SortBy(kept, AtMost);
    var once := Dedup(sorted);
    hide SortBy, Dedup, Keep, AtOrUnder, AtMost, LongerFirst;
    SortKeepsElements(kept, AtMost);
    SortKeepsElements(once, LongerFirst);
    SameElements(SortBy(once, LongerFirst), once, p);
    DedupKeeps(sorted, p);
    SameElements(sorted, kept, p);
    KeepIs(points, dir, p);
  }

  lemma OrderedDistinct(points: seq<string>, dir: string)
    ensures Distinct(Ordered(points, dir)) && Sorted(Ordered(points, dir), LongerFirst)
  {
    var kept := Keep(points, dir);
    var sorted := SortBy(kept, AtMost);
    var once := Dedup(sorted);
    hide SortBy, Dedup, Keep, AtOrUnder, AtMost, Distinct, Sorted;
    AtMostTotal();
    SortSorts(kept, AtMost);
    DedupDistinct(sorted);
    LengthIsTotal();
    SortSorts(once, LongerFirst);
    SortKeepsElements(once, LongerFirst);
    DistinctBySets(once, SortBy(once, LongerFirst));
  }

  lemma LengthIsTotal()
    ensures TotalOrder(LongerFirst)
  {
  }

  /** `mountpoints_in` on the kernel's table: exactly the mountpoints at or under the
      directory, each once, every one before whatever it is mounted under. */
  lemma UnmountOrder(table: seq<Mount>, dir: string)
    requires forall i :: 0 <= i < |table| ==> table[i].Plain()
    ensures var r := MountpointsIn(Render(table), dir);
            && (forall p :: p in r <==> AtOrUnder(p, dir) && exists i :: 0 <= i < |table| && table[i].point == p)
            && Distinct(r)
            && (forall i, j :: 0 <= i < j < |r| ==> !StartsWith(r[j], r[i] + "/"))
  {
    var points := seq(|table|, i requires 0 <= i < |table| => table[i].point);
    TableReadsBack(table);
    OrderedDistinct(points, dir);
    LongerIsNotUnder(Ordered(points, dir));
    hide Ordered, AtOrUnder, Render, Mount.Plain, Lines, PointsOf, Sorted, Distinct;
    forall p
      ensures p in Ordered(points, dir) <==> AtOrUnder(p, dir) && exists i :: 0 <= i < |table| && table[i].point == p
    {
      OrderedContents(points, dir, p);
      if exists i :: 0 <= i < |table| && table[i].point == p {
        var i :| 0 <= i < |table| && table[i].point == p;
        assert points[i] == p;
      }
    }
  }

  /** What is listed for a mountpoint that does not read back: the directory named by
      its part before the first white space the kernel leaves as it is. */
  lemma CutPointIsListed(m: Mount, head: string, c: char, tail: string, dir: string, p: string)
    requires m.device != [] && (forall d :: d in m.device ==> !IsSpace(d)) && '\n' !in m.rest
    requires m.point == head + [c] + tail && head != []
    requires (forall d :: d in head ==> IsSpace(d) ==> d in SPECIALS) && IsSpace(c) && c !in SPECIALS
    ensures p in MountpointsIn(Render([m]), dir) <==> p == head && AtOrUnder(head, dir)
  {
    NewlineIsSpace();
    LineHasNoNewline(m);
    PointIsCut(m, head, c, tail);
    UnescapeInvertsEscape(head);
    NoLines();
    hide IsSpace, SecondField, Unescape, Lines, Escape, Mount.Line, Ordered, AtOrUnder;
    FirstLine(m.Line(), []);
    FirstPoint(ChopCr(m.Line()), [], Escape(head));
    assert Render([m]) == m.Line() + "\n" + [];
    assert [ChopCr(m.Line())] + [] == [ChopCr(m.Line())];
    OrderedContents(PointsOf(Lines(Render([m]))), dir, p);
  }

  /** So a mountpoint beside the installer's own, told apart only by a no-break space
      and what follows, is listed as the installer's own directory. */
  lemma NoBreakSpaceIsMistaken(device: string, rest: string)
    requires device != [] && (forall d :: d in device ==> !IsSpace(d)) && '\n' !in rest
    ensures var dir := "/run/flipperos-install";
            var m := Mount(device, dir + "\U{A0}" + "usb", rest);
            !AtOrUnder(m.point, dir) && dir in MountpointsIn(Render([m]), dir)
  {
    var dir := "/run/flipperos-install";
    var m := Mount(device, dir + "\U{A0}" + "usb", rest);
    assert m.point[|dir|] == '\U{A0}' && (dir + "/")[|dir|] == '/';
    assert forall d :: d in dir ==> d == '/' || d == '-' || 'a' <= d <= 'z';
    CutPointIsListed(m, dir, '\U{A0}', "usb", dir, dir);
  }
}
