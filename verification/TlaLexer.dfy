/**
 The inventory lexer of `tlaps_source.py`: tokens with their lines, past strings and nested comments.

 A lexical step takes a chunk of the source: a token, a blank, a string, a line comment, or one or two
 characters of a nested comment. The chunks join to the source, and a token's line counts the newlines of
 the chunks before it, except those that a string took with it.
 */
module TlaLexer {
  import opened Prelude

  datatype Token = Token(value: string, line: nat)

  // --- Characters -----------------------------------------------------------------------------

  predicate IdStart(c: char) {
    'A' <= c <= 'Z' || 'a' <= c <= 'z' || c == '_'
  }

  predicate IdPart(c: char) {
    IdStart(c) || '0' <= c <= '9'
  }

  /** `str.isspace` of one character. */
  predicate IsSpace(c: char) {
    var n := c as int;
    || 9 <= n <= 13 || 28 <= n <= 32 || n == 0x85 || n == 0xA0 || n == 0x1680 || 0x2000 <= n <= 0x200A
    || n == 0x2028 || n == 0x2029 || n == 0x202F || n == 0x205F || n == 0x3000
  }

  predicate Starts(s: string, a: char, b: char) {
    |s| >= 2 && s[0] == a && s[1] == b
  }

  function Newlines(s: string): nat {
    if s == "" then 0 else (if s[0] == '\n' then 1 else 0) + Newlines(s[1..])
  }

  lemma {:induction false} NewlinesSplit(s: string, t: string)
    ensures Newlines(s + t) == Newlines(s) + Newlines(t)
    decreases |s|
  {
    if s == "" {
      assert s + t == t;
    } else {
      assert (s + t)[1..] == s[1..] + t;
      NewlinesSplit(s[1..], t);
    }
  }

  // --- One step ---------------------------------------------------------------------------------

  function LineEnd(s: string): (n: nat)
    ensures n <= |s|
  {
    if s == "" || s[0] == '\n' then 0 else 1 + LineEnd(s[1..])
  }

  lemma {:induction false} LineEndIs(s: string)
    ensures '\n' !in s[..LineEnd(s)] && (LineEnd(s) < |s| ==> s[LineEnd(s)] == '\n')
    decreases |s|
  {
    if s != "" && s[0] != '\n' {
      LineEndIs(s[1..]);
      var n := LineEnd(s);
      assert s[..n] == [s[0]] + s[1..][..n - 1];
    }
  }

  /** The offset after the closing quote, from inside a string; a backslash takes the next character with it. */
  function StringEnd(s: string, i: nat): (r: Option<nat>)
    ensures r.Some? ==> i < r.value <= |s|
    decreases |s| - i
  {
    if i >= |s| || s[i] == '\n' then None
    else if s[i] == '"' then Some(i + 1)
    else if s[i] == '\\' then StringEnd(s, i + 2)
    else StringEnd(s, i + 1)
  }

  /** How many backslashes stand in a row before `i`, inside a string that begins at 0. */
  function Backslashes(s: string, i: nat): nat
    requires i <= |s|
  {
    if i > 1 && s[i-1] == '\\' then 1 + Backslashes(s, i - 1) else 0
  }

  predicate Escaped(s: string, i: nat)
    requires i <= |s|
  {
    Backslashes(s, i) % 2 == 1
  }

  /** No quote and no newline that is not escaped. */
  predicate Inner(s: string, from: nat, to: nat)
    requires to <= |s|
  {
    forall i :: from <= i < to && !Escaped(s, i) ==> s[i] != '"' && s[i] != '\n'
  }

  lemma {:induction false} StringEndFrom(s: string, i: nat) returns (stop: nat)
    requires 1 <= i <= |s| && !Escaped(s, i)
    ensures i <= stop <= |s| && Inner(s, i, stop)
    ensures match StringEnd(s, i)
            case Some(n) => n == stop + 1 && s[stop] == '"' && !Escaped(s, stop)
            case None => stop == |s| || (s[stop] == '\n' && !Escaped(s, stop))
    decreases |s| - i
  {
    stop := i;
    if i < |s| && s[i] != '\n' && s[i] != '"' {
      if s[i] != '\\' {
        stop := StringEndFrom(s, i + 1);
      } else {
        stop := |s|;
        assert Escaped(s, i + 1);
        if i + 2 <= |s| { stop := StringEndFrom(s, i + 2); }
      }
    }
  }

  /**
   A string ends at the first quote that no odd number of backslashes stands before. It is unfinished if there is
   none, or if such a newline comes first.
   */
  lemma StringEndIs(s: string) returns (stop: nat)
    requires s != "" && s[0] == '"'
    ensures 1 <= stop <= |s| && Inner(s, 1, stop)
    ensures match StringEnd(s, 1)
            case Some(n) => n == stop + 1 && s[stop] == '"' && !Escaped(s, stop)
            case None => stop == |s| || (s[stop] == '\n' && !Escaped(s, stop))
  {
    stop := StringEndFrom(s, 1);
  }

  function IdLength(s: string): (n: nat)
    ensures n <= |s|
  {
    if s == "" || !IdPart(s[0]) then 0 else 1 + IdLength(s[1..])
  }

  lemma {:induction false} IdLengthIs(s: string)
    ensures forall i :: 0 <= i < IdLength(s) ==> IdPart(s[i])
    ensures IdLength(s) < |s| ==> !IdPart(s[IdLength(s)])
    decreases |s|
  {
    if s != "" && IdPart(s[0]) { IdLengthIs(s[1..]); }
  }

  datatype Step =
    | Bad                                                            // an unfinished string, or one with a newline
    | Eat(n: nat, token: bool, depth: nat, newlines: nat)            // `newlines` are those that are counted

  function StepOf(s: string, depth: nat): (r: Step)
    requires s != ""
    ensures r.Eat? ==> 0 < r.n <= |s|
  {
    if depth > 0 then
      if Starts(s, '(', '*') then Eat(2, false, depth + 1, 0)
      else if Starts(s, '*', ')') then Eat(2, false, depth - 1, 0)
      else Eat(1, false, depth, if s[0] == '\n' then 1 else 0)
    else if Starts(s, '\\', '*') then Eat(2 + LineEnd(s[2..]), false, 0, 0)
    else if Starts(s, '(', '*') then Eat(2, false, 1, 0)
    else if s[0] == '"' then
      match StringEnd(s, 1)
      case None => Bad
      case Some(n) => Eat(n, false, 0, 0)
    else if IsSpace(s[0]) then Eat(1, false, 0, if s[0] == '\n' then 1 else 0)
    else if IdStart(s[0]) then
      var n := 1 + IdLength(s[1..]);
      Eat(n, true, 0, 0)
    else Eat(1, true, 0, 0)
  }

  // --- The source, step by step ---------------------------------------------------------------------

  /** What one step takes: a token or not, and the newlines that it counts. */
  datatype Chunk = Chunk(text: string, token: bool, newlines: nat)

  function Chunks(s: string, depth: nat): Option<seq<Chunk>>
    decreases |s|
  {
    if s == "" then if depth > 0 then None else Some([])
    else
      match StepOf(s, depth)
      case Bad => None
      case Eat(n, token, d, newlines) =>
        match Chunks(s[n..], d)
        case None => None
        case Some(rest) => Some([Chunk(s[..n], token, newlines)] + rest)
  }

  function Join(chunks: seq<Chunk>): string {
    if chunks == [] then "" else Join(chunks[..|chunks|-1]) + chunks[|chunks|-1].text
  }

  function Counted(chunks: seq<Chunk>): nat {
    if chunks == [] then 0 else Counted(chunks[..|chunks|-1]) + chunks[|chunks|-1].newlines
  }

  /** A token, its offset, and which chunk it is. */
  datatype Located = Located(token: Token, at: nat, chunk: nat)

  function Placed(chunks: seq<Chunk>): seq<Located> {
    if chunks == [] then []
    else
      var before, last := chunks[..|chunks|-1], chunks[|chunks|-1];
      Placed(before) +
      if last.token then [Located(Token(last.text, 1 + Counted(before)), |Join(before)|, |before|)] else []
  }

  function Tokens(located: seq<Located>): (r: seq<Token>)
    ensures |r| == |located|
  {
    if located == [] then [] else Tokens(located[..|located|-1]) + [located[|located|-1].token]
  }

  lemma {:induction false} TokensAt(located: seq<Located>)
    ensures forall i :: 0 <= i < |located| ==> Tokens(located)[i] == located[i].token
    decreases |located|
  {
    if located != [] { TokensAt(located[..|located|-1]); }
  }

  // --- Lines ----------------------------------------------------------------------------------------

  lemma {:induction false} NoNewlines(s: string)
    requires '\n' !in s
    ensures Newlines(s) == 0
    decreases |s|
  {
    if s != "" { NoNewlines(s[1..]); }
  }

  lemma FirstNewlines(s: string)
    requires s != ""
    ensures Newlines(s[..1]) == if s[0] == '\n' then 1 else 0
    ensures |s| >= 2 && s[0] != '\n' && s[1] != '\n' ==> Newlines(s[..2]) == 0
  {
    assert s[..1][1..] == "";
    if |s| >= 2 && s[0] != '\n' && s[1] != '\n' { NoNewlines(s[..2]); }
  }

  lemma LineCommentNewlines(s: string)
    requires Starts(s, '\\', '*')
    ensures Newlines(s[..2 + LineEnd(s[2..])]) == 0
  {
    var n := 2 + LineEnd(s[2..]);
    LineEndIs(s[2..]);
    assert s[..n] == s[..2] + s[2..][..n - 2];
    NoNewlines(s[..n]);
  }

  lemma IdentifierNewlines(s: string)
    requires s != "" && IdStart(s[0])
    ensures Newlines(s[..1 + IdLength(s[1..])]) == 0
  {
    var n := 1 + IdLength(s[1..]);
    IdLengthIs(s[1..]);
    forall i | 0 <= i < n ensures s[..n][i] != '\n' {
      if i > 0 { assert s[1..][i-1] == s[i]; }
    }
    NoNewlines(s[..n]);
  }

  /** A string that took a newline with it, which is then not counted. */
  predicate LosesNewline(c: Chunk) {
    c.text != "" && c.text[0] == '"' && '\n' in c.text
  }

  /** A chunk counts every newline that it takes, and a string none. */
  predicate Counts(c: Chunk) {
    c.text != "" && if c.text[0] == '"' then c.newlines == 0 else c.newlines == Newlines(c.text)
  }

  lemma StepCounts(s: string, depth: nat)
    requires s != "" && StepOf(s, depth).Eat?
    ensures var e := StepOf(s, depth); Counts(Chunk(s[..e.n], e.token, e.newlines))
  {
    FirstNewlines(s);
    if depth == 0 {
      if Starts(s, '\\', '*') {
        LineCommentNewlines(s);
      } else if IdStart(s[0]) {
        IdentifierNewlines(s);
      }
    }
  }

  lemma {:induction false} ChunksCount(s: string, depth: nat)
    requires Chunks(s, depth).Some?
    ensures forall i :: 0 <= i < |Chunks(s, depth).value| ==> Counts(Chunks(s, depth).value[i])
    decreases |s|
  {
    if s != "" {
      var e := StepOf(s, depth);
      StepCounts(s, depth);
      ChunksCount(s[e.n..], e.depth);
    }
  }

  lemma {:induction false} JoinFirst(first: Chunk, rest: seq<Chunk>)
    ensures Join([first] + rest) == first.text + Join(rest)
    decreases |rest|
  {
    var all := [first] + rest;
    if rest == [] {
      assert all[..0] == [];
    } else {
      assert all[..|all|-1] == [first] + rest[..|rest|-1];
      JoinFirst(first, rest[..|rest|-1]);
    }
  }

  /** The chunks are the whole source. */
  lemma {:induction false} ChunksJoin(s: string, depth: nat)
    requires Chunks(s, depth).Some?
    ensures Join(Chunks(s, depth).value) == s
    decreases |s|
  {
    if s != "" {
      var e := StepOf(s, depth);
      ChunksJoin(s[e.n..], e.depth);
      JoinFirst(Chunk(s[..e.n], e.token, e.newlines), Chunks(s[e.n..], e.depth).value);
    }
  }

  // --- Where tokens are -----------------------------------------------------------------------------

  /** The tokens are where they say, in the order of the source, and lines do not go down. */
  ghost predicate Right(source: string, located: seq<Located>, line: nat) {
    && (forall i :: 0 <= i < |located| ==> RightAt(source, located[i]) && located[i].token.line <= line)
    && (forall i, j :: 0 <= i < j < |located| ==> located[i].at + |located[i].token.value| <= located[j].at)
    && (forall i, j :: 0 <= i < j < |located| ==> located[i].token.line <= located[j].token.line)
  }

  ghost predicate RightAt(source: string, l: Located) {
    && l.token.value != "" && l.at + |l.token.value| <= |source|
    && source[l.at..l.at + |l.token.value|] == l.token.value
  }

  lemma RightLonger(source: string, more: string, located: seq<Located>, line: nat, line': nat)
    requires Right(source, located, line) && line <= line'
    ensures Right(source + more, located, line')
  {
    forall i | 0 <= i < |located| ensures RightAt(source + more, located[i]) {
      var l := located[i];
      assert RightAt(source, l);
      assert (source + more)[l.at..l.at + |l.token.value|] == source[l.at..l.at + |l.token.value|];
    }
  }

  lemma RightLast(source: string, located: seq<Located>, text: string, line: nat, chunk: nat)
    requires Right(source, located, line) && text != ""
    ensures Right(source + text, located + [Located(Token(text, line), |source|, chunk)], line)
  {
    RightLonger(source, text, located, line, line);
    forall i | 0 <= i < |located| ensures located[i].at + |located[i].token.value| <= |source| {
      assert RightAt(source, located[i]);
    }
    assert (source + text)[|source|..] == text;
  }

  /** The places after one more chunk. */
  function PlacedLast(source: string, located: seq<Located>, counted: nat, chunk: nat, last: Chunk): seq<Located> {
    if last.token then located + [Located(Token(last.text, 1 + counted), |source|, chunk)] else located
  }

  lemma PlacedUnfolds(chunks: seq<Chunk>)
    requires chunks != []
    ensures var before, last := chunks[..|chunks|-1], chunks[|chunks|-1];
            Placed(chunks) == PlacedLast(Join(before), Placed(before), Counted(before), |before|, last)
  {
    var before, last := chunks[..|chunks|-1], chunks[|chunks|-1];
    if !last.token { assert Placed(before) + [] == Placed(before); }
  }

  lemma RightNext(source: string, located: seq<Located>, counted: nat, chunk: nat, last: Chunk)
    requires Right(source, located, 1 + counted) && last.text != ""
    ensures Right(source + last.text, PlacedLast(source, located, counted, chunk, last), 1 + counted + last.newlines)
  {
    if last.token {
      RightLast(source, located, last.text, 1 + counted, chunk);
    } else {
      RightLonger(source, last.text, located, 1 + counted, 1 + counted);
    }
  }

  lemma {:induction false} PlacedRight(chunks: seq<Chunk>)
    requires forall i :: 0 <= i < |chunks| ==> Counts(chunks[i])
    ensures Right(Join(chunks), Placed(chunks), 1 + Counted(chunks))
    decreases |chunks|
  {
    if chunks != [] {
      var before, last := chunks[..|chunks|-1], chunks[|chunks|-1];
      PlacedRight(before);
      PlacedUnfolds(chunks);
      RightNext(Join(before), Placed(before), Counted(before), |before|, last);
    }
  }

  /** A token is a chunk, at the end of the chunks before it. */
  lemma {:induction false} PlacedAt(chunks: seq<Chunk>, i: nat)
    requires i < |Placed(chunks)|
    ensures var l := Placed(chunks)[i];
      && l.chunk < |chunks| && l.token == Token(chunks[l.chunk].text, 1 + Counted(chunks[..l.chunk]))
      && l.at == |Join(chunks[..l.chunk])|
    decreases |chunks|
  {
    var before := chunks[..|chunks|-1];
    PlacedUnfolds(chunks);
    if i < |Placed(before)| {
      PlacedAt(before, i);
      var l := Placed(before)[i];
      assert before[..l.chunk] == chunks[..l.chunk];
    }
  }

  lemma {:induction false} JoinStarts(chunks: seq<Chunk>, k: nat)
    requires k <= |chunks|
    ensures Join(chunks[..k]) <= Join(chunks)
    decreases |chunks|
  {
    if k < |chunks| {
      var before := chunks[..|chunks|-1];
      JoinStarts(before, k);
      assert before[..k] == chunks[..k];
    } else {
      assert chunks[..k] == chunks;
    }
  }

  // --- Which lines are right ------------------------------------------------------------------------

  lemma {:induction false} NewlineIn(s: string)
    ensures Newlines(s) == 0 <==> '\n' !in s
    decreases |s|
  {
    if s != "" { NewlineIn(s[1..]); }
  }

  ghost predicate NoneLost(chunks: seq<Chunk>) {
    forall k :: 0 <= k < |chunks| ==> !LosesNewline(chunks[k])
  }

  /** No newline is counted twice, and one is lost exactly in a string that took one. */
  lemma {:induction false} LostInStrings(chunks: seq<Chunk>)
    requires forall i :: 0 <= i < |chunks| ==> Counts(chunks[i])
    ensures Counted(chunks) <= Newlines(Join(chunks))
    ensures Counted(chunks) == Newlines(Join(chunks)) <==> NoneLost(chunks)
    decreases |chunks|
  {
    if chunks != [] {
      var before, last := chunks[..|chunks|-1], chunks[|chunks|-1];
      LostInStrings(before);
      NewlinesSplit(Join(before), last.text);
      NewlineIn(last.text);
      assert Counts(last);
      assert forall k :: 0 <= k < |before| ==> before[k] == chunks[k];
    }
  }

  /** The line is one plus the newlines before it if no string before it took a newline with it, and less otherwise. */
  ghost predicate LineFits(source: string, chunks: seq<Chunk>, l: Located) {
    && l.at <= |source| && l.chunk <= |chunks|
    && l.token.line <= 1 + Newlines(source[..l.at])
    && (l.token.line == 1 + Newlines(source[..l.at]) <==> NoneLost(chunks[..l.chunk]))
  }

  lemma TokenLine(source: string, chunks: seq<Chunk>, i: nat)
    requires Chunks(source, 0) == Some(chunks) && i < |Placed(chunks)|
    ensures LineFits(source, chunks, Placed(chunks)[i])
  {
    ChunksCount(source, 0);
    ChunksJoin(source, 0);
    PlacedAt(chunks, i);
    var l := Placed(chunks)[i];
    JoinStarts(chunks, l.chunk);
    assert source[..l.at] == Join(chunks[..l.chunk]);
    LostInStrings(chunks[..l.chunk]);
  }

  /**
   The tokens are in order where they say and lines do not go down. A token's line is one plus the newlines
   before it exactly when no string before it took a newline with it.
   */
  lemma TokenLines(source: string, chunks: seq<Chunk>)
    requires Chunks(source, 0) == Some(chunks)
    ensures Right(source, Placed(chunks), 1 + Counted(chunks))
    ensures forall i :: 0 <= i < |Placed(chunks)| ==> LineFits(source, chunks, Placed(chunks)[i])
  {
    ChunksCount(source, 0);
    ChunksJoin(source, 0);
    PlacedRight(chunks);
    forall i | 0 <= i < |Placed(chunks)| ensures LineFits(source, chunks, Placed(chunks)[i]) {
      TokenLine(source, chunks, i);
    }
  }

  /** A backslash right before a newline. */
  ghost predicate EscapesNewline(s: string) {
    exists p :: 0 < p < |s| && s[p-1] == '\\' && s[p] == '\n'
  }

  lemma {:induction false} StringEndEscapes(s: string, i: nat, p: nat)
    requires StringEnd(s, i).Some? && i <= p < StringEnd(s, i).value && s[p] == '\n'
    ensures p > 0 && s[p-1] == '\\'
    decreases |s| - i
  {
    if s[i] == '\\' {
      if p > i + 1 { StringEndEscapes(s, i + 2, p); }
    } else if s[i] != '"' {
      StringEndEscapes(s, i + 1, p);
    }
  }

  lemma EscapesLater(s: string, n: nat)
    requires n <= |s| && EscapesNewline(s[n..])
    ensures EscapesNewline(s)
  {
    var rest := s[n..];
    var p :| 0 < p < |rest| && rest[p-1] == '\\' && rest[p] == '\n';
    assert s[n + p - 1] == '\\' && s[n + p] == '\n';
  }

  lemma {:induction false} LosingEscapes(s: string, depth: nat, k: nat)
    requires Chunks(s, depth).Some? && k < |Chunks(s, depth).value| && LosesNewline(Chunks(s, depth).value[k])
    ensures EscapesNewline(s)
    decreases |s|
  {
    var e := StepOf(s, depth);
    if k == 0 {
      var p :| 0 <= p < e.n && s[..e.n][p] == '\n';
      assert s[0] == '"' && depth == 0;
      StringEndEscapes(s, 1, p);
    } else {
      LosingEscapes(s[e.n..], e.depth, k - 1);
      EscapesLater(s, e.n);
    }
  }

  /** In a source without a backslash before a newline every token's line is one plus the newlines before it. */
  lemma LinesWithoutEscapes(source: string, chunks: seq<Chunk>, i: nat)
    requires Chunks(source, 0) == Some(chunks) && !EscapesNewline(source) && i < |Placed(chunks)|
    ensures var l := Placed(chunks)[i]; l.at <= |source| && l.token.line == 1 + Newlines(source[..l.at])
  {
    TokenLine(source, chunks, i);
    forall k | 0 <= k < |chunks| ensures !LosesNewline(chunks[k]) {
      if LosesNewline(chunks[k]) { LosingEscapes(source, 0, k); }
    }
  }

  /** A string with an escaped newline: the token on the second line counts as on the first. */
  lemma EscapedNewlineIsLost()
    ensures Chunks("\"\\\n\"X", 0) == Some([Chunk("\"\\\n\"", false, 0), Chunk("X", true, 0)])
    ensures Placed([Chunk("\"\\\n\"", false, 0), Chunk("X", true, 0)]) == [Located(Token("X", 1), 4, 1)]
    ensures Newlines("\"\\\n\"") == 1
  {
    EscapedChunks();
    OneNewline("\"\\\n\"");
    TwoPlaces(Chunk("\"\\\n\"", false, 0), Chunk("X", true, 0));
  }

  lemma EscapedChunks()
    ensures Chunks("\"\\\n\"X", 0) == Some([Chunk("\"\\\n\"", false, 0), Chunk("X", true, 0)])
  {
    var s := "\"\\\n\"X";
    var first, second := Chunk("\"\\\n\"", false, 0), Chunk("X", true, 0);
    assert StringEnd(s, 1) == StringEnd(s, 3) == Some(4);
    assert StepOf(s, 0) == Eat(4, false, 0, 0) && s[..4] == first.text && s[4..] == "X";
    assert "X"[1..] == "" && "X"[..1] == "X";
    assert StepOf("X", 0) == Eat(1, true, 0, 0);
    assert [second] + [] == [second];
    assert Chunks("X", 0) == Some([second]);
    assert [first] + [second] == [first, second];
  }

  lemma TwoPlaces(first: Chunk, second: Chunk)
    requires !first.token && second.token
    ensures Placed([first, second]) == [Located(Token(second.text, 1 + first.newlines), |first.text|, 1)]
  {
    OnePlace(first);
    PlacedUnfolds([first, second]);
    assert [first, second][..1] == [first];
  }

  lemma OnePlace(first: Chunk)
    requires !first.token
    ensures Placed([first]) == [] && Join([first]) == first.text && Counted([first]) == first.newlines
  {
    PlacedUnfolds([first]);
    assert [first][..0] == [] && Join([]) + first.text == first.text;
  }

  lemma OneNewline(s: string)
    requires |s| == 4 && s[0] != '\n' && s[1] != '\n' && s[2] == '\n' && s[3] != '\n'
    ensures Newlines(s) == 1
  {
    NoNewlines(s[..2]);
    NoNewlines(s[3..]);
    FirstNewlines(s[2..]);
    assert s == s[..2] + s[2..] && s[2..] == s[2..][..1] + s[3..];
    NewlinesSplit(s[..2], s[2..]);
    NewlinesSplit(s[2..][..1], s[3..]);
  }

  // --- The loop -----------------------------------------------------------------------------------------

  /** The inner loop over a string's characters. */
  method SkipString(source: string, offset: nat) returns (end: Option<nat>)
    requires offset < |source| && source[offset] == '"'
    ensures end == match StringEnd(source[offset..], 1) case None => None case Some(n) => Some(offset + n)
  {
    ghost var s := source[offset..];
    var at := offset + 1;
    while at < |source| && source[at] != '"'
      invariant offset < at && StringEnd(s, at - offset) == StringEnd(s, 1)
      decreases |source| - at
    {
      assert s[at - offset] == source[at];
      if source[at] == '\n' { return None; }
      at := at + if source[at] == '\\' then 2 else 1;
    }
    if at >= |source| { return None; }
    assert s[at - offset] == source[at];
    return Some(at + 1);
  }

  /** One turn of the loop, without its effect. */
  method Advance(source: string, offset: nat, depth: nat) returns (e: Step)
    requires offset < |source|
    ensures e == StepOf(source[offset..], depth)
  {
    var rest := source[offset..];
    if depth > 0 {
      if Starts(rest, '(', '*') { return Eat(2, false, depth + 1, 0); }
      if Starts(rest, '*', ')') { return Eat(2, false, depth - 1, 0); }
      return Eat(1, false, depth, if source[offset] == '\n' then 1 else 0);
    }
    if Starts(rest, '\\', '*') { return Eat(2 + LineEnd(rest[2..]), false, 0, 0); }
    if Starts(rest, '(', '*') { return Eat(2, false, 1, 0); }
    if source[offset] == '"' {
      var end := SkipString(source, offset);
      return if end.None? then Bad else Eat(end.value - offset, false, 0, 0);
    }
    if IsSpace(source[offset]) { return Eat(1, false, 0, if source[offset] == '\n' then 1 else 0); }
    return Eat(if IdStart(source[offset]) then 1 + IdLength(rest[1..]) else 1, true, 0, 0);
  }

  /** The chunks before `offset` and those of the rest are the chunks of the source. */
  ghost predicate Sofar(source: string, done: seq<Chunk>, offset: nat, depth: nat) {
    offset <= |source| && var whole, rest := Chunks(source, 0), Chunks(source[offset..], depth);
      whole == if rest.Some? then Some(done + rest.value) else None
  }

  lemma SofarNext(source: string, done: seq<Chunk>, offset: nat, depth: nat, e: Step)
    requires Sofar(source, done, offset, depth) && offset < |source| && e == StepOf(source[offset..], depth)
    ensures e.Bad? ==> Chunks(source, 0).None?
    ensures e.Eat? ==>
              Sofar(source, done + [Chunk(source[offset..offset + e.n], e.token, e.newlines)], offset + e.n, e.depth)
  {
    var s := source[offset..];
    if e.Eat? {
      var c := Chunk(s[..e.n], e.token, e.newlines);
      assert source[offset..offset + e.n] == s[..e.n] && s[e.n..] == source[offset + e.n..];
      var rest := Chunks(source[offset + e.n..], e.depth);
      if rest.Some? { assert done + ([c] + rest.value) == done + [c] + rest.value; }
    }
  }

  /** One turn of the loop: what it takes, and the depth after it. */
  method Take(source: string, offset: nat, depth: nat, ghost done: seq<Chunk>) returns (taken: Option<(Chunk, nat)>)
    requires Sofar(source, done, offset, depth) && offset < |source|
    ensures taken.None? ==> Chunks(source, 0).None?
    ensures taken.Some? ==>
              var (c, d) := taken.value; c.text != "" && Sofar(source, done + [c], offset + |c.text|, d)
  {
    var e := Advance(source, offset, depth);
    SofarNext(source, done, offset, depth, e);
    if e.Bad? { return None; }
    return Some((Chunk(source[offset..offset + e.n], e.token, e.newlines), e.depth));
  }

  /** The tokens of the chunks taken so far, and the line after them. */
  ghost predicate Collected(done: seq<Chunk>, line: nat, result: seq<Token>) {
    line == 1 + Counted(done) && result == Tokens(Placed(done))
  }

  method Collect(c: Chunk, line: nat, result: seq<Token>, ghost done: seq<Chunk>)
    returns (line': nat, result': seq<Token>)
    requires Collected(done, line, result)
    ensures Collected(done + [c], line', result')
  {
    TokensNext(done, c);
    result' := if c.token then result + [Token(c.text, line)] else result;
    line' := line + c.newlines;
  }

  /** `source_tokens`. */
  method SourceTokens(source: string) returns (tokens: Option<seq<Token>>)
    ensures tokens.Some? <==> Chunks(source, 0).Some?
    ensures tokens.Some? ==> tokens.value == Tokens(Placed(Chunks(source, 0).value))
  {
    var result: seq<Token> := [];
    var offset: nat, line: nat, depth: nat := 0, 1, 0;
    ghost var done: seq<Chunk> := [];
    SofarStart(source);
    while offset < |source|
      invariant Sofar(source, done, offset, depth) && Collected(done, line, result)
      decreases |source| - offset
    {
      var taken := Take(source, offset, depth, done);
      if taken.None? { return None; }
      var c := taken.value.0;
      line, result := Collect(c, line, result, done);
      offset, depth, done := offset + |c.text|, taken.value.1, done + [c];
    }
    SofarEnd(source, done, offset, depth);
    return if depth > 0 then None else Some(result);
  }

  lemma SofarEnd(source: string, done: seq<Chunk>, offset: nat, depth: nat)
    requires Sofar(source, done, offset, depth) && offset >= |source|
    ensures depth > 0 ==> Chunks(source, 0).None?
    ensures depth == 0 ==> Chunks(source, 0) == Some(done)
  {
    assert source[offset..] == "";
    assert done + [] == done;
  }

  lemma TokensNext(done: seq<Chunk>, c: Chunk)
    ensures Counted(done + [c]) == Counted(done) + c.newlines
    ensures Tokens(Placed(done + [c])) == if c.token then Tokens(Placed(done)) + [Token(c.text, 1 + Counted(done))]
              else Tokens(Placed(done))
  {
    var more := done + [c];
    PlacedUnfolds(more);
    assert more[..|more|-1] == done;
    if c.token {
      var all := Placed(more);
      assert all == Placed(done) + [Located(Token(c.text, 1 + Counted(done)), |Join(done)|, |done|)];
      assert all[..|all|-1] == Placed(done);
    }
  }

  lemma SofarStart(source: string)
    ensures Sofar(source, [], 0, 0)
  {
    assert source[0..] == source;
    var whole := Chunks(source, 0);
    if whole.Some? { assert [] + whole.value == whole.value; }
  }
}
