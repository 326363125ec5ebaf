/** What `tlaps_source.py` reads from the tokens: that a comment is worth a space, imports, and theorem ranges. */
module TlaSource {
  import opened Prelude
  import opened TlaLexer

  // --- Values ------------------------------------------------------------------------------------

  function Values(chunks: seq<Chunk>): seq<string> {
    if chunks == [] then []
    else
      var last := chunks[|chunks|-1];
      Values(chunks[..|chunks|-1]) + if last.token then [last.text] else []
  }

  lemma {:induction false} ValuesOfTokens(chunks: seq<Chunk>)
    ensures |Values(chunks)| == |Placed(chunks)|
    ensures forall i :: 0 <= i < |Values(chunks)| ==> Values(chunks)[i] == Placed(chunks)[i].token.value
    decreases |chunks|
  {
    if chunks != [] { ValuesOfTokens(chunks[..|chunks|-1]); }
  }

  lemma {:induction false} ValuesAppend(a: seq<Chunk>, b: seq<Chunk>)
    ensures Values(a + b) == Values(a) + Values(b)
    decreases |b|
  {
    if b == [] {
      assert a + b == a;
    } else {
      assert (a + b)[..|a + b|-1] == a + b[..|b|-1];
      ValuesAppend(a, b[..|b|-1]);
    }
  }

  /** The token values of a source; `None` where the lexer gives up. */
  function TokenValues(source: string, depth: nat): Option<seq<string>> {
    match Chunks(source, depth)
    case None => None
    case Some(chunks) => Some(Values(chunks))
  }

  function Prepend(first: seq<string>, rest: Option<seq<string>>): Option<seq<string>> {
    match rest
    case None => None
    case Some(values) => Some(first + values)
  }

  /** One step's part of the values. */
  lemma ValuesStep(s: string, depth: nat)
    requires s != "" && StepOf(s, depth).Eat?
    ensures var e := StepOf(s, depth);
            TokenValues(s, depth) == Prepend(if e.token then [s[..e.n]] else [], TokenValues(s[e.n..], e.depth))
  {
    var e := StepOf(s, depth);
    var rest := Chunks(s[e.n..], e.depth);
    if rest.Some? {
      var c := Chunk(s[..e.n], e.token, e.newlines);
      ValuesAppend([c], rest.value);
      var first := if e.token then [s[..e.n]] else [];
      assert [c][..0] == [] && [] + first == first;
      assert Values([c]) == first;
      assert Chunks(s, depth) == Some([c] + rest.value);
    }
  }

  // --- A step looks no further than the character after it ----------------------------------------

  /** What follows neither continues an identifier nor completes an opening or closing of a comment. */
  predicate Separates(x: string) {
    x != "" && x[0] in {'(', ' '}
  }

  lemma {:induction false} LineEndLocal(a: string, x: string, y: string)
    requires Separates(x) && Separates(y)
    ensures LineEnd(a + x) <= |a| ==> LineEnd(a + y) == LineEnd(a + x) < |a|
    decreases |a|
  {
    if a == "" {
      assert a + x == x;
    } else {
      assert (a + x)[1..] == a[1..] + x && (a + y)[1..] == a[1..] + y;
      LineEndLocal(a[1..], x, y);
    }
  }

  lemma {:induction false} IdLengthLocal(a: string, x: string, y: string)
    requires Separates(x) && Separates(y)
    ensures IdLength(a + x) == IdLength(a + y) <= |a|
    decreases |a|
  {
    if a == "" {
      assert a + x == x && a + y == y;
    } else {
      assert (a + x)[1..] == a[1..] + x && (a + y)[1..] == a[1..] + y;
      IdLengthLocal(a[1..], x, y);
    }
  }

  lemma {:induction false} StringEndLocal(a: string, x: string, y: string, i: nat)
    requires StringEnd(a + x, i).Some? && StringEnd(a + x, i).value <= |a|
    ensures StringEnd(a + y, i) == StringEnd(a + x, i)
    decreases |a| - i
  {
    assert (a + x)[i] == a[i] == (a + y)[i];
    if a[i] != '"' {
      StringEndLocal(a, x, y, if a[i] == '\\' then i + 2 else i + 1);
    }
  }

  lemma StartsLocal(a: string, x: string, c: char, d: char)
    requires Separates(x) && a != "" && d !in {'(', ' '}
    ensures Starts(a + x, c, d) <==> |a| >= 2 && Starts(a, c, d)
  {
    assert (a + x)[0] == a[0];
    if |a| > 1 { assert (a + x)[1] == a[1]; } else { assert (a + x)[1] == x[0]; }
  }

  lemma CommentStepLocal(a: string, x: string, y: string, depth: nat)
    requires Separates(x) && Separates(y) && a != "" && depth > 0
    ensures StepOf(a + y, depth) == StepOf(a + x, depth)
  {
    StartsLocal(a, x, '(', '*');
    StartsLocal(a, y, '(', '*');
    StartsLocal(a, x, '*', ')');
    StartsLocal(a, y, '*', ')');
    assert (a + x)[0] == a[0] == (a + y)[0];
  }

  lemma TailLocal(a: string, x: string, n: nat)
    requires n <= |a|
    ensures (a + x)[n..] == a[n..] + x
  {
  }

  lemma StepLocal(a: string, x: string, y: string, depth: nat)
    requires Separates(x) && Separates(y) && a != ""
    requires StepOf(a + x, depth).Eat? && StepOf(a + x, depth).n <= |a|
    ensures StepOf(a + y, depth) == StepOf(a + x, depth)
  {
    if depth > 0 {
      CommentStepLocal(a, x, y, depth);
      return;
    }
    StartsLocal(a, x, '(', '*');
    StartsLocal(a, y, '(', '*');
    StartsLocal(a, x, '\\', '*');
    StartsLocal(a, y, '\\', '*');
    assert (a + x)[0] == a[0] == (a + y)[0];
    if |a| > 1 && Starts(a, '\\', '*') {
      TailLocal(a, x, 2);
      TailLocal(a, y, 2);
      LineEndLocal(a[2..], x, y);
    } else if a[0] == '"' {
      StringEndLocal(a, x, y, 1);
    } else if IdStart(a[0]) {
      TailLocal(a, x, 1);
      TailLocal(a, y, 1);
      IdLengthLocal(a[1..], x, y);
    }
  }

  /** From `depth`, the lexer of `a + x` comes to `x` and is outside of comments there. */
  predicate Reaches(a: string, x: string, depth: nat)
    decreases |a|
  {
    if a == "" then depth == 0
    else
      match StepOf(a + x, depth)
      case Bad => false
      case Eat(n, _, d, _) => n <= |a| && Reaches(a[n..], x, d)
  }

  /** The values of what comes before `x`. */
  function Before(a: string, x: string, depth: nat): seq<string>
    requires Reaches(a, x, depth)
    decreases |a|
  {
    if a == "" then []
    else
      var e := StepOf(a + x, depth);
      (if e.token then [a[..e.n]] else []) + Before(a[e.n..], x, e.depth)
  }

  lemma PrependTwice(first: seq<string>, second: seq<string>, rest: Option<seq<string>>)
    ensures Prepend(first, Prepend(second, rest)) == Prepend(first + second, rest)
    ensures Prepend([], rest) == rest
  {
    if rest.Some? {
      assert first + (second + rest.value) == first + second + rest.value;
      assert [] + rest.value == rest.value;
    }
  }

  lemma {:induction false} BeforeAndAfter(a: string, x: string, depth: nat)
    requires Reaches(a, x, depth)
    ensures TokenValues(a + x, depth) == Prepend(Before(a, x, depth), TokenValues(x, 0))
    decreases |a|
  {
    if a == "" {
      assert a + x == x;
      PrependTwice([], [], TokenValues(x, 0));
    } else {
      var e := StepOf(a + x, depth);
      ValuesStep(a + x, depth);
      TailLocal(a, x, e.n);
      assert (a + x)[..e.n] == a[..e.n];
      BeforeAndAfter(a[e.n..], x, e.depth);
      PrependTwice(if e.token then [a[..e.n]] else [], Before(a[e.n..], x, e.depth), TokenValues(x, 0));
    }
  }

  lemma {:induction false} SameBefore(a: string, x: string, y: string, depth: nat)
    requires Separates(x) && Separates(y) && Reaches(a, x, depth)
    ensures Reaches(a, y, depth) && Before(a, y, depth) == Before(a, x, depth)
    decreases |a|
  {
    if a != "" {
      StepLocal(a, x, y, depth);
      var e := StepOf(a + x, depth);
      SameBefore(a[e.n..], x, y, e.depth);
    }
  }

  // --- Comments -----------------------------------------------------------------------------------

  /** From inside `depth` comments, `body` closes them all with its last two characters. */
  predicate Closes(body: string, depth: nat)
    decreases |body|
  {
    if body == "" then depth == 0
    else
      && depth > 0
      && if Starts(body, '(', '*') then Closes(body[2..], depth + 1)
         else if Starts(body, '*', ')') then Closes(body[2..], depth - 1)
         else Closes(body[1..], depth)
  }

  /** A whole comment, with those nested in it. */
  predicate IsComment(c: string) {
    Starts(c, '(', '*') && Closes(c[2..], 1)
  }

  lemma ClosesWithTwo(body: string, depth: nat)
    requires body != "" && Closes(body, depth)
    ensures |body| >= 2
  {
  }

  lemma {:induction false} ClosedIsSkipped(body: string, depth: nat, b: string)
    requires Closes(body, depth)
    ensures TokenValues(body + b, depth) == TokenValues(b, 0)
    decreases |body|
  {
    if body == "" {
      assert body + b == b;
    } else {
      var s := body + b;
      ClosesWithTwo(body, depth);
      assert s[0] == body[0] && s[1] == body[1];
      var e := StepOf(s, depth);
      ValuesStep(s, depth);
      assert s[e.n..] == body[e.n..] + b;
      ClosedIsSkipped(body[e.n..], e.depth, b);
      PrependTwice([], [], TokenValues(b, 0));
    }
  }

  lemma CommentIsSkipped(c: string, b: string)
    requires IsComment(c)
    ensures TokenValues(c + b, 0) == TokenValues(b, 0)
  {
    var s := c + b;
    assert s[0] == '(' && s[1] == '*';
    assert StepOf(s, 0) == Eat(2, false, 1, 0);
    ValuesStep(s, 0);
    assert s[2..] == c[2..] + b;
    ClosedIsSkipped(c[2..], 1, b);
    PrependTwice([], [], TokenValues(b, 0));
  }

  lemma SpaceIsSkipped(b: string)
    ensures TokenValues(" " + b, 0) == TokenValues(b, 0)
  {
    var s := " " + b;
    assert s[0] == ' ';
    assert StepOf(s, 0) == Eat(1, false, 0, 0);
    ValuesStep(s, 0);
    assert s[1..] == b;
    PrependTwice([], [], TokenValues(b, 0));
  }

  /** A whole comment that the lexer comes to outside of strings and comments is worth a space. */
  lemma CommentIsSpace(a: string, c: string, b: string)
    requires IsComment(c) && Reaches(a, c + b, 0)
    ensures TokenValues(a + (c + b), 0) == TokenValues(a + (" " + b), 0)
  {
    assert (c + b)[0] == '(' && (" " + b)[0] == ' ';
    BeforeAndAfter(a, c + b, 0);
    SameBefore(a, c + b, " " + b, 0);
    BeforeAndAfter(a, " " + b, 0);
    CommentIsSkipped(c, b);
    SpaceIsSkipped(b);
  }
}
