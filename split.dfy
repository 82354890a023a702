/** Splitting a document into lines and a line into colon-separated fields,
    with the position arithmetic that locates each field inside its line. */
module Split {

  // ---------------------------------------------------------------------------
  // Lines
  // ---------------------------------------------------------------------------

  predicate IsLineBreak(c: char)
  {
    c == '\r' || c == '\n'
  }

  /** The text split on the line terminators "\r\n", "\r" and "\n", scanning left to
      right and trying "\r\n" first at each position, so that "\r\n" is a single
      terminator. A text without terminators is a single (possibly empty) line. */
  function SplitLines(text: string): (lines: seq<string>)
    ensures |lines| >= 1
    ensures forall k :: 0 <= k < |lines| ==> '\r' !in lines[k] && '\n' !in lines[k]
    decreases |text|
  {
    if text == [] then [[]]
    else if text[0] == '\r' && |text| >= 2 && text[1] == '\n' then [[]] + SplitLines(text[2..])
    else if IsLineBreak(text[0]) then [[]] + SplitLines(text[1..])
    else
      var rest := SplitLines(text[1..]);
      [[text[0]] + rest[0]] + rest[1..]
  }

  /** The number of carriage returns in `s` that are not immediately followed by a
      line feed. */
  function LoneCarriageReturns(s: string): nat
  {
    if s == [] then 0
    else (if s[0] == '\r' && !(|s| >= 2 && s[1] == '\n') then 1 else 0) + LoneCarriageReturns(s[1..])
  }

  /** The number of line terminators in `s`: every line feed (alone or closing a
      "\r\n") plus every carriage return that does not open a "\r\n". */
  function TerminatorCount(s: string): nat
  {
    multiset(s)['\n'] + LoneCarriageReturns(s)
  }

  /** `s` with every carriage return and line feed removed. */
  function RemoveLineBreaks(s: string): (r: string)
    ensures '\r' !in r && '\n' !in r
  {
    if s == [] then []
    else (if IsLineBreak(s[0]) then [] else [s[0]]) + RemoveLineBreaks(s[1..])
  }

  /** The concatenation of a list of strings. */
  function Concat(parts: seq<string>): string
  {
    if parts == [] then [] else parts[0] + Concat(parts[1..])
  }

  /** Counting a character in a non-empty string: its first character, then the rest. */
  lemma CountCons(s: string, c: char)
    requires s != []
    ensures multiset(s)[c] == multiset(s[1..])[c] + (if s[0] == c then 1 else 0)
  {
    assert s == [s[0]] + s[1..];
  }

  /** There is one more line than there are terminators. */
  lemma {:induction false} LineCount(text: string)
    ensures |SplitLines(text)| == TerminatorCount(text) + 1
    decreases |text|
  {
    if text == [] {
    } else if text[0] == '\r' && |text| >= 2 && text[1] == '\n' {
      var tail := text[1..];
      assert tail[1..] == text[2..];
      LineCount(text[2..]);
      CountCons(text, '\n');
      CountCons(tail, '\n');
      assert LoneCarriageReturns(text) == LoneCarriageReturns(tail);
      assert LoneCarriageReturns(tail) == LoneCarriageReturns(text[2..]);
    } else {
      LineCount(text[1..]);
      CountCons(text, '\n');
    }
  }

  /** Gluing the lines back together gives the text without its terminators:
      no character is lost, duplicated or reordered by the split. */
  lemma {:induction false} LinesConcat(text: string)
    ensures Concat(SplitLines(text)) == RemoveLineBreaks(text)
    decreases |text|
  {
    if text == [] {
    } else if text[0] == '\r' && |text| >= 2 && text[1] == '\n' {
      LinesConcat(text[2..]);
      assert text[1..][1..] == text[2..];
    } else if IsLineBreak(text[0]) {
      LinesConcat(text[1..]);
    } else {
      LinesConcat(text[1..]);
      var rest := SplitLines(text[1..]);
      var lines := SplitLines(text);
      assert lines[1..] == rest[1..];
      assert Concat(rest) == rest[0] + Concat(rest[1..]);
    }
  }

  /** A text without terminators is exactly one line, itself. */
  lemma SingleLine(text: string)
    requires '\r' !in text && '\n' !in text
    ensures SplitLines(text) == [text]
  {
    LineCount(text);
    LinesConcat(text);
    NoLineBreaksRemoved(text);
    NoLoneCarriageReturns(text);
    assert '\n' !in multiset(text);
    var lines := SplitLines(text);
    assert Concat(lines) == lines[0] + Concat(lines[1..]);
  }

  /** A text without terminators loses nothing when they are removed. */
  lemma {:induction false} NoLineBreaksRemoved(s: string)
    requires '\r' !in s && '\n' !in s
    ensures RemoveLineBreaks(s) == s
  {
    if s != [] {
      var rest := s[1..];
      assert forall k :: 0 <= k < |rest| ==> rest[k] == s[k + 1];
      NoLineBreaksRemoved(rest);
      assert RemoveLineBreaks(s) == [s[0]] + rest;
      assert [s[0]] + rest == s;
    }
  }

  /** A text without carriage returns has no lone ones. */
  lemma {:induction false} NoLoneCarriageReturns(s: string)
    requires '\r' !in s
    ensures LoneCarriageReturns(s) == 0
  {
    if s != [] {
      var rest := s[1..];
      assert forall k :: 0 <= k < |rest| ==> rest[k] == s[k + 1];
      NoLoneCarriageReturns(rest);
    }
  }

  /** A line followed by a terminator ends there, and the rest of the text is
      split on its own. A lone "\r" counts as the terminator only when no "\n"
      follows it, since "\r\n" is matched first. */
  lemma {:induction false} SplitLinesAtTerminator(line: string, term: string, rest: string)
    requires '\r' !in line && '\n' !in line
    requires term == "\r\n" || term == "\n" || (term == "\r" && (rest == [] || rest[0] != '\n'))
    ensures SplitLines(line + term + rest) == [line] + SplitLines(rest)
    decreases |line|
  {
    if line == [] {
      assert line + term + rest == term + rest;
      SplitLinesAfterTerminator(term, rest);
    } else {
      var tail := line[1..] + term + rest;
      assert line + term + rest == [line[0]] + tail;
      SplitLinesAtTerminator(line[1..], term, rest);
      SplitLinesPlainFirst(line[0], tail);
      assert [line[0]] + line[1..] == line;
    }
  }

  /** A text that opens with a terminator starts with an empty line. */
  lemma SplitLinesAfterTerminator(term: string, rest: string)
    requires term == "\r\n" || term == "\n" || (term == "\r" && (rest == [] || rest[0] != '\n'))
    ensures SplitLines(term + rest) == [[]] + SplitLines(rest)
  {
    assert (term + rest)[|term|..] == rest;
  }

  /** A character other than a line break joins the first line. */
  lemma SplitLinesPlainFirst(c: char, text: string)
    requires !IsLineBreak(c)
    ensures var lines := SplitLines(text);
      SplitLines([c] + text) == [[c] + lines[0]] + lines[1..]
  {
    assert ([c] + text)[1..] == text;
  }

  // ---------------------------------------------------------------------------
  // Fields
  // ---------------------------------------------------------------------------

  /** The line split on every occurrence of `sep`: consecutive, leading or trailing
      separators give empty fields, and a line without `sep` is a single field. */
  function SplitOn(s: string, sep: char): (fields: seq<string>)
    ensures |fields| >= 1
    ensures forall k :: 0 <= k < |fields| ==> sep !in fields[k]
    decreases |s|
  {
    if s == [] then [[]]
    else
      var init := SplitOn(s[..|s| - 1], sep);
      var c := s[|s| - 1];
      if c == sep then init + [[]]
      else init[..|init| - 1] + [init[|init| - 1] + [c]]
  }

  /** A line holds one field more than it holds separators. */
  lemma {:induction false} FieldCount(s: string, sep: char)
    ensures |SplitOn(s, sep)| == multiset(s)[sep] + 1
    decreases |s|
  {
    if s != [] {
      FieldCount(s[..|s| - 1], sep);
      assert s == s[..|s| - 1] + [s[|s| - 1]];
    }
  }

  /** The fields put back together with one `sep` between neighbours. */
  function Join(fields: seq<string>, sep: char): string
    requires |fields| >= 1
  {
    if |fields| == 1 then fields[0]
    else Join(fields[..|fields| - 1], sep) + [sep] + fields[|fields| - 1]
  }

  /** A line without separators is a single field. */
  lemma {:induction false} SplitOnNoSeparator(s: string, sep: char)
    requires sep !in s
    ensures SplitOn(s, sep) == [s]
    decreases |s|
  {
    if s != [] {
      SplitOnNoSeparator(s[..|s| - 1], sep);
      assert s[..|s| - 1] + [s[|s| - 1]] == s;
    }
  }

  /** A separator followed by a separator-free tail adds exactly that tail as a
      new last field. */
  lemma {:induction false} SplitOnLastField(front: string, last: string, sep: char)
    requires sep !in last
    ensures SplitOn(front + [sep] + last, sep) == SplitOn(front, sep) + [last]
    decreases |last|
  {
    var s := front + [sep] + last;
    if last == [] {
      assert s[..|s| - 1] == front;
    } else {
      var n := |last|;
      assert s[..|s| - 1] == front + [sep] + last[..n - 1];
      SplitOnLastField(front, last[..n - 1], sep);
      assert last[..n - 1] + [last[n - 1]] == last;
    }
  }

  /** A trailing separator gives an empty last field: it closes the last field
      and opens an empty one. */
  lemma EmptyLastField(s: string, sep: char)
    ensures SplitOn(s + [sep], sep) == SplitOn(s, sep) + [[]]
  {
    assert (s + [sep])[..|s|] == s;
  }

  /** Any other character at the end of a line extends its last field. */
  lemma SplitOnAppendOther(s: string, c: char, sep: char)
    requires c != sep
    ensures var fields := SplitOn(s, sep);
      SplitOn(s + [c], sep) == fields[..|fields| - 1] + [fields[|fields| - 1] + [c]]
  {
    assert (s + [c])[..|s|] == s;
  }

  /** Extending the last field of `x + y`, for a non-empty `y`, extends the last
      field of `y`. */
  lemma ExtendLastOfAppend(x: seq<string>, y: seq<string>, c: char)
    requires |y| >= 1
    ensures var xy := x + y;
      xy[..|xy| - 1] + [xy[|xy| - 1] + [c]] == x + (y[..|y| - 1] + [y[|y| - 1] + [c]])
  {
    var xy := x + y;
    assert xy[..|xy| - 1] == x + y[..|y| - 1];
  }

  /** Splitting at one separator: the fields before it, then the fields after it. */
  lemma {:induction false} SplitOnAt(a: string, b: string, sep: char)
    ensures SplitOn(a + [sep] + b, sep) == SplitOn(a, sep) + SplitOn(b, sep)
    decreases |b|
  {
    if b == [] {
      EmptyLastField(a, sep);
      assert a + [sep] + b == a + [sep];
    } else {
      var n := |b|;
      var front, c := b[..n - 1], b[n - 1];
      var s := a + [sep] + front;
      assert b == front + [c];
      assert a + [sep] + b == s + [c];
      SplitOnAt(a, front, sep);
      if c == sep {
        EmptyLastField(s, sep);
        EmptyLastField(front, sep);
      } else {
        SplitOnAppendOther(s, c, sep);
        SplitOnAppendOther(front, c, sep);
        ExtendLastOfAppend(SplitOn(a, sep), SplitOn(front, sep), c);
      }
    }
  }

  /** Two neighbouring separators enclose an empty field. */
  lemma EmptyFieldBetween(a: string, c: string, sep: char)
    ensures SplitOn(a + [sep, sep] + c, sep) == SplitOn(a, sep) + [[]] + SplitOn(c, sep)
  {
    var b := [sep] + c;
    assert a + [sep, sep] + c == a + [sep] + b;
    SplitOnAt(a, b, sep);
    SplitOnAt([], c, sep);
    assert [] + [sep] + c == b;
  }

  /** A leading separator gives an empty first field. */
  lemma EmptyFirstField(c: string, sep: char)
    ensures SplitOn([sep] + c, sep) == [[]] + SplitOn(c, sep)
  {
    SplitOnAt([], c, sep);
    assert [] + [sep] + c == [sep] + c;
  }

  /** Joining separator-free fields and splitting again gives back the fields. */
  lemma {:induction false} SplitOnJoin(fields: seq<string>, sep: char)
    requires |fields| >= 1
    requires forall k :: 0 <= k < |fields| ==> sep !in fields[k]
    ensures SplitOn(Join(fields, sep), sep) == fields
    decreases |fields|
  {
    var n := |fields|;
    if n == 1 {
      SplitOnNoSeparator(fields[0], sep);
    } else {
      var init, last := fields[..n - 1], fields[n - 1];
      assert forall k :: 0 <= k < |init| ==> init[k] == fields[k];
      SplitOnJoin(init, sep);
      assert Join(fields, sep) == Join(init, sep) + [sep] + last;
      assert sep !in last;
      SplitOnLastField(Join(init, sep), last, sep);
      assert init + [last] == fields;
    }
  }

  /** The total length of the fields. */
  function SumLengths(fields: seq<string>): nat
  {
    if fields == [] then 0 else SumLengths(fields[..|fields| - 1]) + |fields[|fields| - 1]|
  }

  /** Where field j starts in the joined line: the lengths of the fields before it,
      plus one separator after each of them. */
  function FieldStart(fields: seq<string>, j: nat): nat
    requires j <= |fields|
  {
    SumLengths(fields[..j]) + j
  }

  /** Each field starts one separator after the end of the one before it. */
  lemma FieldStartStep(fields: seq<string>, j: nat)
    requires j < |fields|
    ensures FieldStart(fields, j + 1) == FieldStart(fields, j) + |fields[j]| + 1
  {
    assert fields[..j + 1][..j] == fields[..j];
  }

  /** Field starts strictly increase with the field index. */
  lemma {:induction false} FieldStartIncreasing(fields: seq<string>, p: nat, q: nat)
    requires p < q <= |fields|
    ensures FieldStart(fields, p) < FieldStart(fields, q)
    decreases q - p
  {
    FieldStartStep(fields, p);
    if p + 1 < q {
      FieldStartIncreasing(fields, p + 1, q);
    }
  }

  /** Splitting and joining again gives back the line. */
  lemma {:induction false} JoinSplitOn(s: string, sep: char)
    ensures Join(SplitOn(s, sep), sep) == s
    decreases |s|
  {
    if s != [] {
      var front, c := s[..|s| - 1], s[|s| - 1];
      var init := SplitOn(front, sep);
      JoinSplitOn(front, sep);
      assert s == front + [c];
      if c == sep {
        EmptyLastField(front, sep);
        JoinAppend(init, [], sep);
        assert front + [sep] + [] == s;
      } else {
        SplitOnAppendOther(front, c, sep);
        JoinExtendLast(init, c, sep);
      }
    }
  }

  /** Extending the last field extends the joined line. */
  lemma JoinExtendLast(fields: seq<string>, c: char, sep: char)
    requires |fields| >= 1
    ensures var n := |fields|;
      Join(fields[..n - 1] + [fields[n - 1] + [c]], sep) == Join(fields, sep) + [c]
  {
    var n := |fields|;
    var init, last := fields[..n - 1], fields[n - 1];
    if n > 1 {
      assert fields == init + [last];
      JoinAppend(init, last, sep);
      JoinAppend(init, last + [c], sep);
    }
  }

  /** Joining one more field appends a separator and that field. */
  lemma JoinAppend(fields: seq<string>, f: string, sep: char)
    requires |fields| >= 1
    ensures Join(fields + [f], sep) == Join(fields, sep) + [sep] + f
  {
    assert (fields + [f])[..|fields|] == fields;
  }

  /** The joined line ends where its last field ends. */
  lemma {:induction false} JoinLength(fields: seq<string>, sep: char)
    requires |fields| >= 1
    ensures |Join(fields, sep)| == FieldStart(fields, |fields| - 1) + |fields[|fields| - 1]|
    decreases |fields|
  {
    var n := |fields|;
    if n > 1 {
      var init := fields[..n - 1];
      JoinLength(init, sep);
      assert init[..n - 2] == fields[..n - 2];
      FieldStartStep(fields, n - 2);
    }
  }

  /** Joining the first k fields gives a prefix of the joined line. */
  lemma {:induction false} JoinPrefix(fields: seq<string>, sep: char, k: nat)
    requires 1 <= k <= |fields|
    ensures |Join(fields[..k], sep)| <= |Join(fields, sep)|
    ensures Join(fields, sep)[..|Join(fields[..k], sep)|] == Join(fields[..k], sep)
    decreases |fields| - k
  {
    if k == |fields| {
      assert fields[..k] == fields;
    } else {
      JoinPrefix(fields, sep, k + 1);
      assert fields[..k + 1][..k] == fields[..k];
      assert Join(fields[..k + 1], sep) == Join(fields[..k], sep) + [sep] + fields[k];
    }
  }

  /** In the joined line, a separator follows the first k fields when more follow. */
  lemma JoinSeparatorAfter(fields: seq<string>, sep: char, k: nat)
    requires 1 <= k < |fields|
    ensures |Join(fields[..k], sep)| < |Join(fields, sep)|
    ensures Join(fields, sep)[|Join(fields[..k], sep)|] == sep
  {
    var q := fields[..k + 1];
    JoinPrefix(fields, sep, k + 1);
    assert q[..k] == fields[..k];
    var joined := Join(q, sep);
    assert joined == Join(fields[..k], sep) + [sep] + fields[k];
    assert joined[|Join(fields[..k], sep)|] == sep;
  }

  /** In the joined line, field j occupies [FieldStart(j), FieldStart(j) + |field j|);
      a separator follows every field but the last, and the last one ends the line. */
  lemma JoinLayout(fields: seq<string>, sep: char, j: nat)
    requires |fields| >= 1 && j < |fields|
    ensures FieldStart(fields, j) + |fields[j]| <= |Join(fields, sep)|
    ensures Join(fields, sep)[FieldStart(fields, j)..FieldStart(fields, j) + |fields[j]|] == fields[j]
    ensures j < |fields| - 1 ==>
      FieldStart(fields, j) + |fields[j]| < |Join(fields, sep)| &&
      Join(fields, sep)[FieldStart(fields, j) + |fields[j]|] == sep
    ensures j == |fields| - 1 ==> FieldStart(fields, j) + |fields[j]| == |Join(fields, sep)|
  {
    var s, p := Join(fields, sep), fields[..j + 1];
    var start, end := FieldStart(fields, j), FieldStart(fields, j) + |fields[j]|;
    JoinLength(p, sep);
    assert p[..j] == fields[..j];
    assert |Join(p, sep)| == end;
    JoinPrefix(fields, sep, j + 1);
    assert s[start..end] == Join(p, sep)[start..end];
    if j > 0 {
      assert Join(p, sep) == Join(p[..j], sep) + [sep] + fields[j];
    }
    if j < |fields| - 1 {
      JoinSeparatorAfter(fields, sep, j + 1);
    } else {
      assert p == fields;
    }
  }

  /** The lengths of the fields plus one separator between each pair of
      neighbours add up to the length of the line. */
  lemma LineLengthBalance(s: string, sep: char)
    ensures SumLengths(SplitOn(s, sep)) + |SplitOn(s, sep)| - 1 == |s|
  {
    var fields := SplitOn(s, sep);
    JoinSplitOn(s, sep);
    JoinLayout(fields, sep, |fields| - 1);
    assert fields[..|fields|] == fields;
  }
}
