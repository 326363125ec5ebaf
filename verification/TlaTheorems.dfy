/** Imports and theorem ranges of `tlaps_source.py`. */
module TlaTheorems {
  import opened Prelude
  import opened TlaLexer
  import opened TlaSource

  predicate IsIdentifier(s: string) {
    s != "" && IdStart(s[0]) && forall i :: 0 <= i < |s| ==> IdPart(s[i])
  }

  // --- Imports ------------------------------------------------------------------------------------

  /** The names from `at` on: one, or as many as commas join. */
  function Listed(words: seq<string>, at: nat, many: bool): Option<seq<string>>
    decreases |words| - at
  {
    if at >= |words| || !IsIdentifier(words[at]) then None
    else if !many || at + 1 >= |words| || words[at + 1] != "," then Some([words[at]])
    else Prepend([words[at]], Listed(words, at + 2, many))
  }

  predicate Keyword(word: string) {
    word in ["EXTENDS", "INSTANCE"]
  }

  /** The names after every `EXTENDS` and `INSTANCE` from `at` on. */
  function Imports(words: seq<string>, at: nat): Option<seq<string>>
    decreases |words| - at
  {
    if at >= |words| then Some([])
    else if !Keyword(words[at]) then Imports(words, at + 1)
    else
      match Listed(words, at + 1, words[at] == "EXTENDS")
      case None => None
      case Some(names) => Prepend(names, Imports(words, at + 1))
  }

  /** `dict.fromkeys`: without repetitions, in the order of the first occurrences. */
  function Once(s: seq<string>): (r: seq<string>)
    ensures Distinct(r) && forall x :: x in r <==> x in s
  {
    if s == [] then []
    else
      var before, last := Once(s[..|s|-1]), s[|s|-1];
      assert s == s[..|s|-1] + [last];
      if last in before then before else before + [last]
  }

  function Dependencies(source: string): Option<seq<string>> {
    match TokenValues(source, 0)
    case None => None
    case Some(words) =>
      match Imports(words, 0)
      case None => None
      case Some(names) => Some(Once(names))
  }

  /** `m` commas follow the name at `at`, one after every other word; only `many` allows any. */
  predicate Chain(words: seq<string>, at: nat, many: bool, m: nat) {
    m > 0 ==> many && forall q :: 0 <= q < m ==> at + 1 + 2 * q < |words| && words[at + 1 + 2 * q] == ","
  }

  lemma ChainNext(words: seq<string>, at: nat, many: bool, m: nat)
    ensures Chain(words, at, many, m + 1)
            <==> many && at + 1 < |words| && words[at + 1] == "," && Chain(words, at + 2, many, m)
  {
    if Chain(words, at, many, m + 1) {
      assert words[at + 1 + 2 * 0] == ",";
      forall q | 0 <= q < m ensures at + 3 + 2 * q < |words| && words[at + 3 + 2 * q] == "," {
        assert words[at + 1 + 2 * (q + 1)] == ",";
      }
    }
    if many && at + 1 < |words| && words[at + 1] == "," && Chain(words, at + 2, many, m) {
      forall q | 0 <= q < m + 1 ensures at + 1 + 2 * q < |words| && words[at + 1 + 2 * q] == "," {
        if q > 0 { assert words[at + 3 + 2 * (q - 1)] == ","; }
      }
    }
  }

  /** `x` is a word of the comma chain from `at` on. */
  ghost predicate InChain(words: seq<string>, at: nat, many: bool, x: string) {
    exists m: nat :: Chain(words, at, many, m) && at + 2 * m < |words| && words[at + 2 * m] == x
  }

  /** The chain from `at` on wants a name where there is none. */
  ghost predicate ChainBreaks(words: seq<string>, at: nat, many: bool) {
    exists m: nat :: Chain(words, at, many, m) && (at + 2 * m >= |words| || !IsIdentifier(words[at + 2 * m]))
  }

  lemma {:induction false} ListedIsChain(words: seq<string>, at: nat, many: bool)
    ensures Listed(words, at, many).None? <==> ChainBreaks(words, at, many)
    ensures Listed(words, at, many).Some? ==>
              forall x :: x in Listed(words, at, many).value <==> InChain(words, at, many, x)
    decreases |words| - at
  {
    assert Chain(words, at, many, 0);
    if at >= |words| || !IsIdentifier(words[at]) {
      assert at + 2 * 0 >= |words| || !IsIdentifier(words[at + 2 * 0]);
    } else if !many || at + 1 >= |words| || words[at + 1] != "," {
      ChainOfOne(words, at, many);
    } else {
      ListedIsChain(words, at + 2, many);
      ChainSteps(words, at, many);
    }
  }

  lemma ChainOfOne(words: seq<string>, at: nat, many: bool)
    requires at < |words| && (!many || at + 1 >= |words| || words[at + 1] != ",")
    ensures ChainBreaks(words, at, many) <==> !IsIdentifier(words[at])
    ensures forall x :: InChain(words, at, many, x) <==> x == words[at]
  {
    forall m: nat | Chain(words, at, many, m) ensures m == 0 {
      if m > 0 { ChainNext(words, at, many, m - 1); }
    }
    assert Chain(words, at, many, 0) && words[at + 2 * 0] == words[at];
  }

  lemma ChainSteps(words: seq<string>, at: nat, many: bool)
    requires many && at + 1 < |words| && words[at + 1] == ","
    ensures ChainBreaks(words, at, many) <==> !IsIdentifier(words[at]) || ChainBreaks(words, at + 2, many)
    ensures forall x :: InChain(words, at, many, x) <==> x == words[at] || InChain(words, at + 2, many, x)
  {
    assert Chain(words, at, many, 0) && words[at + 2 * 0] == words[at];
    forall x | InChain(words, at + 2, many, x) ensures InChain(words, at, many, x) {
      var m: nat :| Chain(words, at + 2, many, m) && at + 2 + 2 * m < |words| && words[at + 2 + 2 * m] == x;
      ChainNext(words, at, many, m);
      assert Chain(words, at, many, m + 1) && words[at + 2 * (m + 1)] == x;
    }
    forall x | InChain(words, at, many, x) && x != words[at] ensures InChain(words, at + 2, many, x) {
      var m: nat :| Chain(words, at, many, m) && at + 2 * m < |words| && words[at + 2 * m] == x;
      ChainNext(words, at, many, m - 1);
      assert Chain(words, at + 2, many, m - 1) && words[at + 2 + 2 * (m - 1)] == x;
    }
    if ChainBreaks(words, at + 2, many) {
      var m: nat :| Chain(words, at + 2, many, m) && (at + 2 + 2 * m >= |words|
                                                      || !IsIdentifier(words[at + 2 + 2 * m]));
      ChainNext(words, at, many, m);
      assert Chain(words, at, many, m + 1) && (at + 2 * (m + 1) >= |words| || !IsIdentifier(words[at + 2 * (m + 1)]));
    }
    if ChainBreaks(words, at, many) && IsIdentifier(words[at]) {
      var m: nat :| Chain(words, at, many, m) && (at + 2 * m >= |words| || !IsIdentifier(words[at + 2 * m]));
      ChainNext(words, at, many, m - 1);
      assert Chain(words, at + 2, many, m - 1) && (at + 2 + 2 * (m - 1) >= |words|
                                                   || !IsIdentifier(words[at + 2 + 2 * (m - 1)]));
    }
  }

  /** `x` stands after an `INSTANCE`, or in the comma chain after an `EXTENDS`, from `from` on. */
  ghost predicate Imported(words: seq<string>, from: nat, x: string) {
    exists i: nat :: from <= i < |words| && Keyword(words[i]) && InChain(words, i + 1, words[i] == "EXTENDS", x)
  }

  /** From `from` on some keyword, or a comma of its chain, is not followed by a name. */
  ghost predicate BadImport(words: seq<string>, from: nat) {
    exists i: nat :: from <= i < |words| && Keyword(words[i]) && ChainBreaks(words, i + 1, words[i] == "EXTENDS")
  }

  lemma {:induction false} ImportsAre(words: seq<string>, at: nat)
    ensures Imports(words, at).None? <==> BadImport(words, at)
    ensures Imports(words, at).Some? ==> forall x :: x in Imports(words, at).value <==> Imported(words, at, x)
    decreases |words| - at
  {
    if at < |words| {
      ImportsAre(words, at + 1);
      if Keyword(words[at]) {
        ListedIsChain(words, at + 1, words[at] == "EXTENDS");
      }
    }
  }

  /**
   `names` are the names after the import keywords of the source, each once; there are none when a name is
   missing.
   */
  ghost predicate ImportsOf(source: string, names: Option<seq<string>>) {
    match TokenValues(source, 0)
    case None => names.None?
    case Some(words) =>
      && (names.None? <==> BadImport(words, 0))
      && (names.Some? ==> Distinct(names.value) && forall x :: x in names.value <==> Imported(words, 0, x))
  }

  lemma DependenciesAre(source: string)
    ensures ImportsOf(source, Dependencies(source))
  {
    if TokenValues(source, 0).Some? {
      ImportsAre(TokenValues(source, 0).value, 0);
    }
  }

  /** A comment more or less does not change what a module imports. */
  lemma CommentKeepsImports(a: string, c: string, b: string)
    requires IsComment(c) && Reaches(a, c + b, 0)
    ensures Dependencies(a + (c + b)) == Dependencies(a + (" " + b))
  {
    CommentIsSpace(a, c, b);
  }

  /** The inner loop: the names after one keyword. */
  method ListNames(words: seq<string>, start: nat, many: bool) returns (names: Option<seq<string>>)
    ensures names == Listed(words, start, many)
  {
    var found: seq<string> := [];
    var cursor := start;
    PrependTwice([], [], Listed(words, start, many));
    while true
      invariant Listed(words, start, many) == Prepend(found, Listed(words, cursor, many))
      decreases |words| - cursor
    {
      if cursor >= |words| || !IsIdentifier(words[cursor]) { return None; }
      PrependTwice(found, [words[cursor]], Listed(words, cursor + 2, many));
      found := found + [words[cursor]];
      cursor := cursor + 1;
      if !many || cursor >= |words| || words[cursor] != "," { return Some(found); }
      cursor := cursor + 1;
    }
  }

  /** The outer loop: the names after every keyword. */
  method ListImports(words: seq<string>) returns (names: Option<seq<string>>)
    ensures names == Imports(words, 0)
  {
    var found: seq<string> := [];
    PrependTwice([], [], Imports(words, 0));
    for index := 0 to |words|
      invariant Imports(words, 0) == Prepend(found, Imports(words, index))
    {
      if Keyword(words[index]) {
        var more := ListNames(words, index + 1, words[index] == "EXTENDS");
        if more.None? { return None; }
        PrependTwice(found, more.value, Imports(words, index + 1));
        found := found + more.value;
      }
    }
    assert found + [] == found;
    return Some(found);
  }

  /** `module_dependencies`. */
  method ModuleDependencies(source: string) returns (names: Option<seq<string>>)
    ensures names == Dependencies(source) && ImportsOf(source, names)
  {
    DependenciesAre(source);
    var tokens := SourceTokens(source);
    if tokens.None? { return None; }
    ValuesOfTokens(Chunks(source, 0).value);
    TokensAt(Placed(Chunks(source, 0).value));
    var words := seq(|tokens.value|, i requires 0 <= i < |tokens.value| => tokens.value[i].value);
    assert words == Values(Chunks(source, 0).value);
    var found := ListImports(words);
    return if found.None? then None else Some(Once(found.value));
  }

  // --- Theorem ranges --------------------------------------------------------------------------------

  /** A named declaration and the line of its keyword. */
  datatype Declaration = Declaration(name: string, line: nat)

  predicate Declares(t: Token) {
    t.value in ["THEOREM", "LEMMA"]
  }

  function Declarations(tokens: seq<Token>, at: nat): Option<seq<Declaration>>
    decreases |tokens| - at
  {
    if at >= |tokens| then Some([])
    else if !Declares(tokens[at]) then Declarations(tokens, at + 1)
    else if at + 1 >= |tokens| || !IsIdentifier(tokens[at + 1].value) then None
    else
      match Declarations(tokens, at + 1)
      case None => None
      case Some(rest) => Some([Declaration(tokens[at + 1].value, tokens[at].line)] + rest)
  }

  /** The places of all the keywords from `at` on, and what is declared there. */
  ghost predicate DeclaredFrom(tokens: seq<Token>, at: nat, places: seq<nat>, declared: seq<Declaration>) {
    && (forall i, j :: 0 <= i < j < |places| ==> places[i] < places[j])
    && (forall k: nat :: k in places <==> at <= k < |tokens| && Declares(tokens[k]))
    && Declare(tokens, places, declared)
  }

  predicate Declare(tokens: seq<Token>, places: seq<nat>, declared: seq<Declaration>) {
    && |places| == |declared|
    && forall i :: 0 <= i < |places| ==> places[i] + 1 < |tokens| && tokens[places[i]].line == declared[i].line
                                         && tokens[places[i] + 1].value == declared[i].name
  }

  predicate Unnamed(tokens: seq<Token>, k: nat) {
    k < |tokens| && Declares(tokens[k])
    && (k + 1 >= |tokens| || !IsIdentifier(tokens[k + 1].value))
  }

  /** Every keyword declares the name after it, unless there is none. */
  lemma DeclarationsAre(tokens: seq<Token>)
    ensures match Declarations(tokens, 0)
            case Some(declared) => (exists places :: DeclaredFrom(tokens, 0, places, declared))
                                   && forall k: nat :: !Unnamed(tokens, k)
            case None => exists k: nat :: Unnamed(tokens, k)
  {
    if Declarations(tokens, 0).Some? {
      var places := PlacesFrom(tokens, 0);
      assert DeclaredFrom(tokens, 0, places, Declarations(tokens, 0).value);
    } else {
      var k := UnnamedFrom(tokens, 0);
    }
  }

  lemma {:induction false} PlacesFrom(tokens: seq<Token>, at: nat) returns (places: seq<nat>)
    requires Declarations(tokens, at).Some?
    ensures DeclaredFrom(tokens, at, places, Declarations(tokens, at).value)
    ensures forall k: nat :: at <= k ==> !Unnamed(tokens, k)
    decreases |tokens| - at
  {
    if at >= |tokens| { return []; }
    places := PlacesFrom(tokens, at + 1);
    if Declares(tokens[at]) {
      FirstPlace(tokens, at, places, Declarations(tokens, at + 1).value);
      places := [at] + places;
    }
  }

  lemma FirstPlace(tokens: seq<Token>, at: nat, places: seq<nat>, declared: seq<Declaration>)
    requires at + 1 < |tokens| && Declares(tokens[at])
    requires DeclaredFrom(tokens, at + 1, places, declared)
    ensures DeclaredFrom(tokens, at, [at] + places, [Declaration(tokens[at + 1].value, tokens[at].line)] + declared)
  {
    var all := [at] + places;
    forall k: nat ensures k in all <==> at <= k < |tokens| && Declares(tokens[k]) {
      assert k in all <==> k == at || k in places;
    }
    FirstIsLeast(at, places);
    DeclareFirst(tokens, at, places, declared);
  }

  lemma DeclareFirst(tokens: seq<Token>, at: nat, places: seq<nat>, declared: seq<Declaration>)
    requires at + 1 < |tokens| && Declare(tokens, places, declared)
    ensures Declare(tokens, [at] + places, [Declaration(tokens[at + 1].value, tokens[at].line)] + declared)
  {
  }

  lemma FirstIsLeast(at: nat, places: seq<nat>)
    requires (forall i, j :: 0 <= i < j < |places| ==> places[i] < places[j]) && forall k :: k in places ==> at < k
    ensures var all := [at] + places; forall i, j :: 0 <= i < j < |all| ==> all[i] < all[j]
  {
    assert forall j :: 0 <= j < |places| ==> places[j] in places;
  }

  lemma {:induction false} UnnamedFrom(tokens: seq<Token>, at: nat) returns (k: nat)
    requires Declarations(tokens, at).None?
    ensures Unnamed(tokens, k)
    decreases |tokens| - at
  {
    k := at;
    if !Unnamed(tokens, at) { k := UnnamedFrom(tokens, at + 1); }
  }

  function LineBreak(s: string): nat
    requires s != ""
  {
    var n := s[0] as int;
    if n == 13 && |s| > 1 && s[1] == '\n' then 2
    else if 10 <= n <= 13 || 28 <= n <= 30 || n == 0x85 || n == 0x2028 || n == 0x2029 then 1
    else 0
  }

  /** `len(text.splitlines())`; `open` says whether the current line has begun. */
  function LineCount(s: string, begun: bool): nat {
    if s == "" then if begun then 1 else 0
    else if LineBreak(s) > 0 then 1 + LineCount(s[LineBreak(s)..], false)
    else LineCount(s[1..], true)
  }

  /** A line ends at `k`; a carriage return before a newline ends none by itself. */
  predicate LineEnds(s: string, k: nat) {
    k < |s|
    && var n := s[k] as int;
    && (10 <= n <= 13 || 28 <= n <= 30 || n == 0x85 || n == 0x2028 || n == 0x2029)
    && !(n == 13 && k + 1 < |s| && s[k + 1] == '\n')
  }

  ghost function LineEndsFrom(s: string, at: nat): set<nat> {
    set k: nat | at <= k < |s| && LineEnds(s, k)
  }

  /** The lines of a text are those that end and, if there is more after the last end, one that does not. */
  lemma LineCountIs(s: string)
    ensures LineCount(s, false) == |LineEndsFrom(s, 0)| + if s != "" && !LineEnds(s, |s| - 1) then 1 else 0
  {
    assert s[0..] == s;
    LineCountFrom(s, 0, false);
  }

  /** At the start of a line, or inside one. */
  predicate Starts(s: string, at: nat, begun: bool) {
    && at <= |s| && (at < |s| && s[at] == '\n' ==> at == 0 || s[at - 1] != '\r')
    && (begun <==> at > 0 && !LineEnds(s, at - 1))
  }

  function Unfinished(s: string): nat {
    if s != "" && !LineEnds(s, |s| - 1) then 1 else 0
  }

  lemma {:induction false} LineCountFrom(s: string, at: nat, begun: bool)
    requires Starts(s, at, begun)
    ensures LineCount(s[at..], begun) == |LineEndsFrom(s, at)| + Unfinished(s)
    decreases |s| - at
  {
    if at == |s| {
      assert LineEndsFrom(s, at) == {};
    } else if LineBreak(s[at..]) == 0 {
      NoEndThere(s, at, begun);
      LineCountFrom(s, at + 1, true);
    } else {
      var next := EndsThere(s, at, begun);
      LineCountFrom(s, next, false);
    }
  }

  lemma NoEndThere(s: string, at: nat, begun: bool)
    requires at < |s| && LineBreak(s[at..]) == 0
    ensures Starts(s, at + 1, true) && LineEndsFrom(s, at) == LineEndsFrom(s, at + 1)
    ensures LineCount(s[at..], begun) == LineCount(s[at + 1..], true)
  {
    assert s[at..][1..] == s[at + 1..];
  }

  lemma EndsThere(s: string, at: nat, begun: bool) returns (next: nat)
    requires at < |s| && LineBreak(s[at..]) > 0
    ensures at < next && Starts(s, next, false) && |LineEndsFrom(s, at)| == 1 + |LineEndsFrom(s, next)|
    ensures LineCount(s[at..], begun) == 1 + LineCount(s[next..], false)
  {
    var n := LineBreak(s[at..]);
    next := at + n;
    assert n == 2 ==> !LineEnds(s, at);
    assert LineEndsFrom(s, at) == LineEndsFrom(s, next) + {next - 1};
    assert s[at..][n..] == s[next..];
  }

  /** From the keyword's line to the line before the next keyword's. */
  datatype Range = Range(start: int, end: int)

  predicate Inside(r: Range, line: int) {
    r.start <= line <= r.end
  }

  function RangeOf(declared: seq<Declaration>, lines: nat, i: nat): Range
    requires i < |declared|
  {
    Range(declared[i].line, if i + 1 < |declared| then declared[i + 1].line - 1 else lines)
  }

  function NamesOf(declared: seq<Declaration>): (r: seq<string>)
    ensures |r| == |declared| && forall i :: 0 <= i < |r| ==> r[i] == declared[i].name
  {
    seq(|declared|, i requires 0 <= i < |declared| => declared[i].name)
  }

  ghost predicate Ranges(declared: seq<Declaration>, lines: nat, ranges: map<string, Range>) {
    && Distinct(NamesOf(declared))
    && (forall i :: 0 <= i < |declared| ==> declared[i].name in ranges
                                            && ranges[declared[i].name] == RangeOf(declared, lines, i))
    && (forall n :: n in ranges ==> n in NamesOf(declared))
  }

  /** The named declarations of a text; `None` when it has no tokens, or a declaration no name. */
  function DeclaredIn(text: string): Option<seq<Declaration>> {
    match Chunks(text, 0)
    case None => None
    case Some(chunks) => Declarations(Tokens(Placed(chunks)), 0)
  }

  /** The ranges of a text whose declarations are named, and differently. */
  ghost predicate TextRanges(text: string, ranges: map<string, Range>) {
    DeclaredIn(text).Some? && Ranges(DeclaredIn(text).value, LineCount(text, false), ranges)
  }

  /** `theorem_ranges`. */
  method TheoremRanges(text: string) returns (ranges: Option<map<string, Range>>)
    ensures ranges.Some? ==> TextRanges(text, ranges.value)
    ensures ranges.None? ==> DeclaredIn(text).None? || !Distinct(NamesOf(DeclaredIn(text).value))
  {
    var tokens := SourceTokens(text);
    if tokens.None? { return None; }
    var declared := Declared(tokens.value);
    if declared.None? { return None; }
    ranges := RangesOf(declared.value, LineCount(text, false));
  }

  /** The first loop. */
  method Declared(tokens: seq<Token>) returns (declared: Option<seq<Declaration>>)
    ensures declared == Declarations(tokens, 0)
  {
    var found: seq<Declaration> := [];
    ghost var all := Declarations(tokens, 0);
    if all.Some? { assert [] + all.value == all.value; }
    for index := 0 to |tokens|
      invariant var rest := Declarations(tokens, index);
                Declarations(tokens, 0) == if rest.Some? then Some(found + rest.value) else None
    {
      if Declares(tokens[index]) {
        if index + 1 >= |tokens| || !IsIdentifier(tokens[index + 1].value) { return None; }
        var next := Declaration(tokens[index + 1].value, tokens[index].line);
        ghost var rest := Declarations(tokens, index + 1);
        if rest.Some? { assert found + ([next] + rest.value) == found + [next] + rest.value; }
        found := found + [next];
      }
    }
    assert found + [] == found;
    return Some(found);
  }

  function FirstNames(declared: seq<Declaration>, i: nat): set<string>
    requires i <= |declared|
  {
    if i == 0 then {} else FirstNames(declared, i - 1) + {declared[i-1].name}
  }

  lemma {:induction false} FirstNamesAre(declared: seq<Declaration>, i: nat, n: string)
    requires i <= |declared|
    ensures n in FirstNames(declared, i) <==> exists k :: 0 <= k < i && declared[k].name == n
    decreases i
  {
    if i > 0 {
      FirstNamesAre(declared, i - 1, n);
      assert declared[i-1].name == n ==> exists k :: 0 <= k < i && declared[k].name == n;
    }
  }

  /** The ranges of the first `i` declarations. */
  ghost predicate RangedTo(declared: seq<Declaration>, lines: nat, i: nat, result: map<string, Range>)
    requires i <= |declared|
  {
    && Distinct(NamesOf(declared[..i]))
    && (forall k :: 0 <= k < i ==> declared[k].name in result
                                   && result[declared[k].name] == RangeOf(declared, lines, k))
    && result.Keys == FirstNames(declared, i)
  }

  lemma RangedNext(declared: seq<Declaration>, lines: nat, i: nat, result: map<string, Range>)
    requires i < |declared| && RangedTo(declared, lines, i, result) && declared[i].name !in result
    ensures RangedTo(declared, lines, i + 1, result[declared[i].name := RangeOf(declared, lines, i)])
  {
    var before, more := NamesOf(declared[..i]), NamesOf(declared[..i+1]);
    assert more == before + [declared[i].name];
    forall k | 0 <= k < i ensures before[k] != declared[i].name { assert before[k] == declared[k].name; }
  }

  lemma RangedTwice(declared: seq<Declaration>, lines: nat, i: nat, result: map<string, Range>)
    requires i < |declared| && RangedTo(declared, lines, i, result) && declared[i].name in result
    ensures !Distinct(NamesOf(declared))
  {
    FirstNamesAre(declared, i, declared[i].name);
    var k :| 0 <= k < i && declared[k].name == declared[i].name;
    assert NamesOf(declared)[k] == NamesOf(declared)[i];
  }

  lemma RangedAll(declared: seq<Declaration>, lines: nat, result: map<string, Range>)
    requires RangedTo(declared, lines, |declared|, result)
    ensures Ranges(declared, lines, result)
  {
    assert declared[..|declared|] == declared;
    forall n | n in result ensures n in NamesOf(declared) {
      FirstNamesAre(declared, |declared|, n);
      var k :| 0 <= k < |declared| && declared[k].name == n;
      assert NamesOf(declared)[k] == n;
    }
  }

  /** The second loop. */
  method RangesOf(declared: seq<Declaration>, lines: nat) returns (ranges: Option<map<string, Range>>)
    ensures ranges.Some? <==> Distinct(NamesOf(declared))
    ensures ranges.Some? ==> Ranges(declared, lines, ranges.value)
  {
    var result: map<string, Range> := map[];
    for i := 0 to |declared|
      invariant RangedTo(declared, lines, i, result)
    {
      if declared[i].name in result {
        RangedTwice(declared, lines, i, result);
        return None;
      }
      RangedNext(declared, lines, i, result);
      result := result[declared[i].name := RangeOf(declared, lines, i)];
    }
    RangedAll(declared, lines, result);
    return Some(result);
  }

  ghost predicate Ascends(tokens: seq<Token>) {
    forall i, j :: 0 <= i < j < |tokens| ==> tokens[i].line <= tokens[j].line
  }

  lemma {:induction false} DeclarationsAscend(tokens: seq<Token>, at: nat)
    requires Ascends(tokens) && Declarations(tokens, at).Some?
    ensures var d := Declarations(tokens, at).value;
      && (forall i :: 0 <= i < |d| ==> at < |tokens| && d[i].line >= tokens[at].line)
      && (forall i, j :: 0 <= i < j < |d| ==> d[i].line <= d[j].line)
    decreases |tokens| - at
  {
    if at < |tokens| {
      DeclarationsAscend(tokens, at + 1);
      var rest := Declarations(tokens, at + 1).value;
      assert at + 1 < |tokens| ==> tokens[at].line <= tokens[at + 1].line;
    }
  }

  lemma DeclaredAscend(text: string)
    requires DeclaredIn(text).Some?
    ensures var d := DeclaredIn(text).value; forall i, j :: 0 <= i < j < |d| ==> d[i].line <= d[j].line
  {
    TokenLines(text, Chunks(text, 0).value);
    var tokens := Tokens(Placed(Chunks(text, 0).value));
    TokensAt(Placed(Chunks(text, 0).value));
    forall i, j | 0 <= i < j < |tokens| ensures tokens[i].line <= tokens[j].line {
      assert Placed(Chunks(text, 0).value)[i].token == tokens[i] && Placed(Chunks(text, 0).value)[j].token == tokens[j];
    }
    DeclarationsAscend(tokens, 0);
  }

  lemma DeclaredApart(declared: seq<Declaration>, lines: nat, ranges: map<string, Range>, m: string, n: string,
                      line: int)
    requires Ranges(declared, lines, ranges) && m in ranges && n in ranges && m != n
    requires forall i, j :: 0 <= i < j < |declared| ==> declared[i].line <= declared[j].line
    ensures !(Inside(ranges[m], line) && Inside(ranges[n], line))
  {
    var i :| 0 <= i < |declared| && NamesOf(declared)[i] == m;
    var j :| 0 <= j < |declared| && NamesOf(declared)[j] == n;
    RangesApart(declared, lines, if i < j then i else j, if i < j then j else i, line);
  }

  /** No line belongs to two theorems. */
  lemma RangesDisjoint(text: string, ranges: map<string, Range>, m: string, n: string, line: int)
    requires TextRanges(text, ranges) && m in ranges && n in ranges && m != n
    ensures !(Inside(ranges[m], line) && Inside(ranges[n], line))
  {
    DeclaredAscend(text);
    DeclaredApart(DeclaredIn(text).value, LineCount(text, false), ranges, m, n, line);
  }

  /** Every line from the first keyword's on belongs to a theorem, up to the end of the text. */
  lemma RangesCover(text: string, ranges: map<string, Range>, line: nat)
    requires TextRanges(text, ranges) && DeclaredIn(text).value != []
    requires DeclaredIn(text).value[0].line <= line <= LineCount(text, false)
    ensures exists n :: n in ranges && Inside(ranges[n], line)
  {
    var declared := DeclaredIn(text).value;
    var i := LastBefore(declared, line, |declared|);
    assert Inside(ranges[declared[i].name], line);
  }

  lemma {:induction false} LastBefore(declared: seq<Declaration>, line: nat, n: nat) returns (i: nat)
    requires 0 < n <= |declared| && declared[0].line <= line && (n < |declared| ==> line < declared[n].line)
    ensures i < n && declared[i].line <= line && (i + 1 < |declared| ==> line < declared[i + 1].line)
    decreases n
  {
    i := n - 1;
    if line < declared[n - 1].line { i := LastBefore(declared, line, n - 1); }
  }

  lemma RangesApart(declared: seq<Declaration>, lines: nat, i: nat, j: nat, line: int)
    requires i < j < |declared| && forall a, b :: 0 <= a < b < |declared| ==> declared[a].line <= declared[b].line
    ensures !(Inside(RangeOf(declared, lines, i), line) && Inside(RangeOf(declared, lines, j), line))
  {
    assert i + 1 < j ==> declared[i + 1].line <= declared[j].line;
  }
}
