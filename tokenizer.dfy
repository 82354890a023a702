/** The proxy-list field tokenizer: every line of the document is split on ':'
    and every field becomes one token, labelled by its position in the line. */
module Tokenizer {
  import opened Legend
  import opened Split

  /** One highlighted span: the field's line, where it starts in that line, its
      length, its category and its (always empty) modifiers. */
  datatype Token = Token(line: nat, startCharacter: nat, length: nat, tokenType: Category, tokenModifiers: seq<string>)

  /** The character that separates the fields of a line. */
  const FieldSeparator: char := ':'

  /** The fields of one line. */
  function Fields(line: string): (fields: seq<string>)
    ensures |fields| >= 1
  {
    SplitOn(line, FieldSeparator)
  }

  /** The tokens of line i: field j starts where fields 0..j-1 and their
      separators end, and its category is chosen by j alone. */
  function LineTokens(i: nat, line: string): seq<Token>
  {
    var fields := Fields(line);
    seq(|fields|, j requires 0 <= j < |fields| =>
      Token(i, FieldStart(fields, j), |fields[j]|, GetTokenForPart(j), []))
  }

  /** The tokens of a list of lines, line after line. */
  function TokensOfLines(lines: seq<string>): seq<Token>
  {
    if lines == [] then []
    else TokensOfLines(lines[..|lines| - 1]) + LineTokens(|lines| - 1, lines[|lines| - 1])
  }

  /** The tokens of a whole document. */
  function Tokenize(text: string): seq<Token>
  {
    TokensOfLines(SplitLines(text))
  }

  /** Builds the token list the way the extension does: a line loop, a field loop
      inside it, one token appended per field and a running offset that restarts
      at 0 on every line and moves past each field and one separator. */
  method ParseText(text: string) returns (r: seq<Token>)
    ensures r == Tokenize(text)
  {
    r := [];
    var lines := SplitLines(text);
    for i := 0 to |lines|
      invariant r == TokensOfLines(lines[..i])
    {
      var line := lines[i];
      var currentOffset := 0;
      var parts := Fields(line);
      ghost var done := r;
      for j := 0 to |parts|
        invariant currentOffset == FieldStart(parts, j)
        invariant r == done + LineTokens(i, line)[..j]
      {
        var part := parts[j];
        LineTokensStep(i, line, j);
        r := r + [Token(i, currentOffset, |part|, GetTokenForPart(j), [])];
        assert r == done + LineTokens(i, line)[..j + 1];
        FieldStartStep(parts, j);
        currentOffset := currentOffset + |part| + 1;
      }
      TokensOfLinesStep(lines, i);
    }
    assert lines[..|lines|] == lines;
  }

  /** One more field of a line adds its token to the prefix already emitted. */
  lemma LineTokensStep(i: nat, line: string, j: nat)
    requires j < |Fields(line)|
    ensures LineTokens(i, line)[..j + 1] == LineTokens(i, line)[..j] +
      [Token(i, FieldStart(Fields(line), j), |Fields(line)[j]|, GetTokenForPart(j), [])]
  {
  }

  /** One more line adds all of its tokens after those of the lines before it. */
  lemma TokensOfLinesStep(lines: seq<string>, i: nat)
    requires i < |lines|
    ensures TokensOfLines(lines[..i + 1]) == TokensOfLines(lines[..i]) + LineTokens(i, lines[i])
    ensures LineTokens(i, lines[i])[..|Fields(lines[i])|] == LineTokens(i, lines[i])
  {
    assert lines[..i + 1][..i] == lines[..i];
  }

  // ---------------------------------------------------------------------------
  // Selecting the tokens of one line
  // ---------------------------------------------------------------------------

  /** The tokens of `ts` that lie on line i, in their original order. */
  function OnLine(ts: seq<Token>, i: nat): seq<Token>
  {
    if ts == [] then []
    else (if ts[0].line == i then [ts[0]] else []) + OnLine(ts[1..], i)
  }

  lemma {:induction false} OnLineAppend(a: seq<Token>, b: seq<Token>, i: nat)
    ensures OnLine(a + b, i) == OnLine(a, i) + OnLine(b, i)
  {
    if a == [] {
      assert a + b == b;
    } else {
      var head := if a[0].line == i then [a[0]] else [];
      assert (a + b)[0] == a[0];
      assert (a + b)[1..] == a[1..] + b;
      assert OnLine(a + b, i) == head + OnLine(a[1..] + b, i);
      OnLineAppend(a[1..], b, i);
      assert OnLine(a, i) == head + OnLine(a[1..], i);
    }
  }

  lemma {:induction false} OnLineUniform(ts: seq<Token>, k: nat, i: nat)
    requires forall p :: 0 <= p < |ts| ==> ts[p].line == k
    ensures OnLine(ts, i) == if k == i then ts else []
  {
    if ts != [] {
      assert ts[0].line == k;
      OnLineUniform(ts[1..], k, i);
      assert [ts[0]] + ts[1..] == ts;
    }
  }

  /** Selecting line i from the tokens of all lines gives exactly the tokens of
      line i, and nothing for an index past the last line. */
  lemma {:induction false} TokensOnLine(lines: seq<string>, i: nat)
    ensures OnLine(TokensOfLines(lines), i) == if i < |lines| then LineTokens(i, lines[i]) else []
  {
    if lines != [] {
      var n := |lines|;
      var init, last := lines[..n - 1], LineTokens(n - 1, lines[n - 1]);
      assert TokensOfLines(lines) == TokensOfLines(init) + last;
      TokensOnLine(init, i);
      OnLineAppend(TokensOfLines(init), last, i);
      OnLineUniform(last, n - 1, i);
      if i < n - 1 {
        assert init[i] == lines[i];
      }
    }
  }

  // ---------------------------------------------------------------------------
  // Properties of the tokens of one line
  // ---------------------------------------------------------------------------

  /** The total length of a list of tokens. */
  function SumTokenLengths(ts: seq<Token>): nat
  {
    if ts == [] then 0 else SumTokenLengths(ts[..|ts| - 1]) + ts[|ts| - 1].length
  }

  /** Token t covers exactly field j of the line: it starts after fields 0..j-1
      and one separator each, its slice of the line is the field and holds no
      separator, a separator follows it unless it is the last field, and the last
      field ends the line. It carries the category of position j and no
      modifiers. */
  predicate CoversField(line: string, j: nat, t: Token)
    requires j < |Fields(line)|
  {
    var fields, start, end := Fields(line), t.startCharacter, t.startCharacter + t.length;
    && start == SumLengths(fields[..j]) + j
    && end <= |line|
    && line[start..end] == fields[j]
    && FieldSeparator !in line[start..end]
    && (j < |fields| - 1 ==> end < |line| && line[end] == FieldSeparator)
    && (j == |fields| - 1 ==> end == |line|)
    && t.tokenType == GetTokenForPart(j)
    && t.tokenModifiers == []
  }

  /** Token j of line i carries index i and covers exactly field j. */
  lemma LineTokenLayout(i: nat, line: string, j: nat)
    requires j < |LineTokens(i, line)|
    ensures LineTokens(i, line)[j].line == i
    ensures CoversField(line, j, LineTokens(i, line)[j])
  {
    var fields := Fields(line);
    JoinSplitOn(line, FieldSeparator);
    JoinLayout(fields, FieldSeparator, j);
  }

  /** The first token of every line starts at column 0, and token starts strictly
      increase along the line. */
  lemma LineTokenStarts(i: nat, line: string)
    ensures LineTokens(i, line)[0].startCharacter == 0
    ensures forall p, q :: 0 <= p < q < |LineTokens(i, line)| ==>
              LineTokens(i, line)[p].startCharacter < LineTokens(i, line)[q].startCharacter
  {
    var fields := Fields(line);
    forall p, q | 0 <= p < q < |fields|
      ensures FieldStart(fields, p) < FieldStart(fields, q)
    {
      FieldStartIncreasing(fields, p, q);
    }
  }

  /** Prefix sums of token lengths follow prefix sums of field lengths. */
  lemma {:induction false} SumTokenLengthsPrefix(i: nat, line: string, k: nat)
    requires k <= |LineTokens(i, line)|
    ensures SumTokenLengths(LineTokens(i, line)[..k]) == SumLengths(Fields(line)[..k])
  {
    if k > 0 {
      var ts, fields := LineTokens(i, line), Fields(line);
      SumTokenLengthsPrefix(i, line, k - 1);
      assert ts[..k][..k - 1] == ts[..k - 1];
      assert fields[..k][..k - 1] == fields[..k - 1];
    }
  }

  /** The token lengths of a line plus one separator between each pair of
      neighbouring tokens add up to the length of the line. */
  lemma LineLengthFromTokens(i: nat, line: string)
    ensures SumTokenLengths(LineTokens(i, line)) + |LineTokens(i, line)| - 1 == |line|
  {
    var ts, fields := LineTokens(i, line), Fields(line);
    SumTokenLengthsPrefix(i, line, |ts|);
    assert ts[..|ts|] == ts;
    assert fields[..|fields|] == fields;
    LineLengthBalance(line, FieldSeparator);
  }

  // ---------------------------------------------------------------------------
  // Properties of the tokens of a document
  // ---------------------------------------------------------------------------

  /** Line indices never decrease, and on one line start characters strictly
      increase. */
  predicate Ordered(ts: seq<Token>)
  {
    forall p, q :: 0 <= p < q < |ts| ==>
      ts[p].line <= ts[q].line &&
      (ts[p].line == ts[q].line ==> ts[p].startCharacter < ts[q].startCharacter)
  }

  lemma {:induction false} TokensOfLinesOrdered(lines: seq<string>)
    ensures forall t :: t in TokensOfLines(lines) ==> t.line < |lines|
    ensures Ordered(TokensOfLines(lines))
  {
    if lines != [] {
      var n := |lines|;
      var init := lines[..n - 1];
      TokensOfLinesOrdered(init);
      var a, b := TokensOfLines(init), LineTokens(n - 1, lines[n - 1]);
      LineTokenStarts(n - 1, lines[n - 1]);
      assert TokensOfLines(lines) == a + b;
      assert forall k :: 0 <= k < |a| ==> a[k] in a;
    }
  }

  /** The number of tokens on each line is one more than the number of
      separators in it; no token lies past the last line. */
  lemma TokenCountPerLine(text: string, i: nat)
    ensures var lines := SplitLines(text);
      |OnLine(Tokenize(text), i)| == if i < |lines| then multiset(lines[i])[FieldSeparator] + 1 else 0
  {
    TokensOnLine(SplitLines(text), i);
    if i < |SplitLines(text)| {
      FieldCount(SplitLines(text)[i], FieldSeparator);
    }
  }

  /** The tokens of a document are ordered line by line and, on a line, by
      start character, and every line of the document has tokens. */
  lemma TokensOrdered(text: string)
    ensures Ordered(Tokenize(text))
    ensures forall t :: t in Tokenize(text) ==> t.line < |SplitLines(text)|
    ensures forall i :: 0 <= i < |SplitLines(text)| ==> OnLine(Tokenize(text), i) != []
  {
    TokensOfLinesOrdered(SplitLines(text));
    forall i | 0 <= i < |SplitLines(text)|
      ensures OnLine(Tokenize(text), i) != []
    {
      TokenCountPerLine(text, i);
    }
  }

  /** On every line of a document, token j covers exactly field j of that line,
      and the line's token lengths plus one separator between neighbours add up
      to the length of the line. */
  lemma TokenPositions(text: string, i: nat, j: nat)
    requires i < |SplitLines(text)|
    requires j < |Fields(SplitLines(text)[i])|
    ensures |OnLine(Tokenize(text), i)| == |Fields(SplitLines(text)[i])|
    ensures CoversField(SplitLines(text)[i], j, OnLine(Tokenize(text), i)[j])
    ensures SumTokenLengths(OnLine(Tokenize(text), i)) + |OnLine(Tokenize(text), i)| - 1 == |SplitLines(text)[i]|
  {
    var line := SplitLines(text)[i];
    TokensOnLine(SplitLines(text), i);
    LineTokenLayout(i, line, j);
    LineLengthFromTokens(i, line);
  }

  /** Every token carries no modifiers, and the encoded modifier code is 0. */
  lemma {:induction false} ModifiersAlwaysEmpty(lines: seq<string>)
    ensures forall t :: t in TokensOfLines(lines) ==>
              t.tokenModifiers == [] && EncodeTokenModifiers(t.tokenModifiers) == 0
  {
    if lines != [] {
      ModifiersAlwaysEmpty(lines[..|lines| - 1]);
    }
  }

  /** The encoded type of token j on a line is j for the first five fields and 0
      for every later one. */
  lemma EncodedTypeOnLine(text: string, i: nat, j: nat)
    requires j < |OnLine(Tokenize(text), i)|
    ensures EncodeTokenType(Name(OnLine(Tokenize(text), i)[j].tokenType)) ==
              if j < |TokenTypesLegend| then j else 0
  {
    TokensOnLine(SplitLines(text), i);
    EncodedTypeOfPart(j);
  }

  /** An empty document yields a single empty delimiter token at (0, 0). */
  lemma EmptyDocument()
    ensures Tokenize("") == [Token(0, 0, 0, Delimiter, [])]
  {
  }

  /** A document without line breaks is line 0 and nothing else. */
  lemma SingleLineDocument(text: string)
    requires '\r' !in text && '\n' !in text
    ensures Tokenize(text) == LineTokens(0, text)
  {
    SingleLine(text);
    assert [text][..0] == [];
    assert TokensOfLines([text]) == TokensOfLines([]) + LineTokens(0, text);
  }

  /** A document of two lines gives the tokens of line 0 and then those of line 1,
      whatever terminator separates them. */
  lemma TwoLineDocument(first: string, term: string, second: string)
    requires '\r' !in first && '\n' !in first && '\r' !in second && '\n' !in second
    requires term == "\r\n" || term == "\n" || term == "\r"
    ensures Tokenize(first + term + second) == LineTokens(0, first) + LineTokens(1, second)
  {
    SplitLinesAtTerminator(first, term, second);
    SingleLine(second);
    var lines := [first, second];
    assert SplitLines(first + term + second) == lines;
    assert lines[..1] == [first] && lines[..1][..0] == [];
    assert TokensOfLines(lines[..1]) == LineTokens(0, first);
  }

  /** The tokens of a line of five fields, written out. */
  lemma FiveFieldLine(i: nat, line: string, fields: seq<string>)
    requires Fields(line) == fields && |fields| == 5
    ensures LineTokens(i, line) ==
      [ Token(i, 0, |fields[0]|, Delimiter, []),
        Token(i, |fields[0]| + 1, |fields[1]|, Port, []),
        Token(i, |fields[0]| + |fields[1]| + 2, |fields[2]|, Value, []),
        Token(i, |fields[0]| + |fields[1]| + |fields[2]| + 3, |fields[3]|, Username, []),
        Token(i, |fields[0]| + |fields[1]| + |fields[2]| + |fields[3]| + 4, |fields[4]|, Password, []) ]
  {
    FieldStartStep(fields, 0);
    FieldStartStep(fields, 1);
    FieldStartStep(fields, 2);
    FieldStartStep(fields, 3);
  }

  /** Five fields joined with ':' are the entry written out. */
  lemma JoinFive(host: string, port: string, value: string, username: string, password: string)
    ensures Join([host, port, value, username, password], FieldSeparator) ==
      host + ":" + port + ":" + value + ":" + username + ":" + password
  {
    var f1, f2, f3, f4 := [host], [host, port], [host, port, value], [host, port, value, username];
    var fields := [host, port, value, username, password];
    assert f2[..1] == f1 && f3[..2] == f2 && f4[..3] == f3 && fields[..4] == f4;
    assert Join(f1, FieldSeparator) == host;
    assert Join(f2, FieldSeparator) == host + ":" + port;
    assert Join(f3, FieldSeparator) == host + ":" + port + ":" + value;
    assert Join(f4, FieldSeparator) == host + ":" + port + ":" + value + ":" + username;
  }

  /** A field that holds neither a separator nor a line break. */
  predicate PlainField(f: string)
  {
    FieldSeparator !in f && '\r' !in f && '\n' !in f
  }

  /** Plain fields joined with ':' hold no line break. */
  lemma {:induction false} PlainEntryIsOneLine(fields: seq<string>)
    requires |fields| >= 1
    requires forall k :: 0 <= k < |fields| ==> PlainField(fields[k])
    ensures '\r' !in Join(fields, FieldSeparator) && '\n' !in Join(fields, FieldSeparator)
    decreases |fields|
  {
    var n := |fields|;
    if n > 1 {
      PlainEntryIsOneLine(fields[..n - 1]);
      assert PlainField(fields[n - 1]);
    } else {
      assert PlainField(fields[0]);
    }
  }

  /** Five plain fields joined with ':' form a one-line document whose tokens are
      those of a five-field line. */
  lemma EntryTokens(fields: seq<string>)
    requires |fields| == 5
    requires forall k :: 0 <= k < |fields| ==> PlainField(fields[k])
    ensures Tokenize(Join(fields, FieldSeparator)) ==
      [ Token(0, 0, |fields[0]|, Delimiter, []),
        Token(0, |fields[0]| + 1, |fields[1]|, Port, []),
        Token(0, |fields[0]| + |fields[1]| + 2, |fields[2]|, Value, []),
        Token(0, |fields[0]| + |fields[1]| + |fields[2]| + 3, |fields[3]|, Username, []),
        Token(0, |fields[0]| + |fields[1]| + |fields[2]| + |fields[3]| + 4, |fields[4]|, Password, []) ]
  {
    var line := Join(fields, FieldSeparator);
    SplitOnJoin(fields, FieldSeparator);
    PlainEntryIsOneLine(fields);
    SingleLineDocument(line);
    FiveFieldLine(0, line, fields);
  }

  /** A full proxy entry host:port:value:username:password gives five tokens, one
      per category, each starting one column after the end of the one before. */
  lemma FullEntry(host: string, port: string, value: string, username: string, password: string)
    requires PlainField(host) && PlainField(port) && PlainField(value)
    requires PlainField(username) && PlainField(password)
    ensures Tokenize(host + ":" + port + ":" + value + ":" + username + ":" + password) ==
      [ Token(0, 0, |host|, Delimiter, []),
        Token(0, |host| + 1, |port|, Port, []),
        Token(0, |host| + |port| + 2, |value|, Value, []),
        Token(0, |host| + |port| + |value| + 3, |username|, Username, []),
        Token(0, |host| + |port| + |value| + |username| + 4, |password|, Password, []) ]
  {
    var fields := [host, port, value, username, password];
    JoinFive(host, port, value, username, password);
    assert forall k :: 0 <= k < |fields| ==> PlainField(fields[k]);
    EntryTokens(fields);
  }
}
