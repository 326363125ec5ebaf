/** The admission of prover results: `Evidence.parse` and `Evidence.positive` of `tlaps_evidence.py`. */
module TlaEvidence {
  import opened Prelude
  import opened TlaTheorems

  datatype Status = ProvedStatus | TrivialStatus | FailedStatus | OtherStatus

  /** `already` is the field of that name: the result was not computed in this run. */
  datatype Obligation = Obligation(start: int, end: int, status: Status, already: bool)

  /**
   A Toolbox block: an obligation count, an obligation with its columns, one that cannot be read, or anything
   else.
   */
  datatype Block =
    | Count(digits: Option<nat>)
    | Result(id: int, column: int, endColumn: int, obligation: Obligation)
    | Unreadable
    | Irrelevant

  type Obligations = map<int, Obligation>

  predicate WellPlaced(b: Block)
    requires b.Result?
  {
    b.id >= 1 && b.obligation.start >= 1 && b.column >= 1 && b.endColumn >= 1 && b.obligation.end >= b.obligation.start
  }

  predicate SamePlace(a: Obligation, b: Obligation) {
    a.start == b.start && a.end == b.end
  }

  /** Every block can be read, and an obligation stays where it was first reported. */
  ghost predicate Consistent(blocks: seq<Block>) {
    && (forall i :: 0 <= i < |blocks| ==> !blocks[i].Unreadable? && (blocks[i].Count? ==> blocks[i].digits.Some?))
    && (forall i :: 0 <= i < |blocks| && blocks[i].Result? ==> WellPlaced(blocks[i]))
    && (forall i, j :: 0 <= i < j < |blocks| && blocks[i].Result? && blocks[j].Result? && blocks[i].id == blocks[j].id
          ==> SamePlace(blocks[i].obligation, blocks[j].obligation))
    && (forall i, j :: 0 <= i < j < |blocks| ==> !(blocks[i].Count? && blocks[j].Count?))
  }

  /** The last report of every obligation. */
  ghost predicate Latest(blocks: seq<Block>, obligations: Obligations) {
    && (forall i :: 0 <= i < |blocks| && blocks[i].Result? ==> blocks[i].id in obligations)
    && (forall id :: id in obligations ==> exists i :: 0 <= i < |blocks| && Reports(blocks, i, id, obligations[id]))
  }

  ghost predicate Reports(blocks: seq<Block>, i: nat, id: int, o: Obligation)
    requires i < |blocks|
  {
    && blocks[i].Result? && blocks[i].id == id && blocks[i].obligation == o
    && forall j :: i < j < |blocks| && blocks[j].Result? ==> blocks[j].id != id
  }

  ghost predicate Counted(blocks: seq<Block>, count: Option<nat>) {
    match count
    case None => forall i :: 0 <= i < |blocks| ==> !blocks[i].Count?
    case Some(n) => exists i :: 0 <= i < |blocks| && blocks[i] == Count(Some(n))
  }

  lemma LatestNext(blocks: seq<Block>, k: nat, obligations: Obligations)
    requires k < |blocks| && blocks[k].Result? && Latest(blocks[..k], obligations)
    ensures Latest(blocks[..k+1], obligations[blocks[k].id := blocks[k].obligation])
  {
    var b, more := blocks[k], blocks[..k+1];
    var next := obligations[b.id := b.obligation];
    forall id | id in next ensures exists i :: 0 <= i < |more| && Reports(more, i, id, next[id]) {
      if id == b.id {
        assert Reports(more, k, id, b.obligation);
      } else {
        var i :| 0 <= i < k && Reports(blocks[..k], i, id, obligations[id]);
        assert Reports(more, i, id, next[id]);
      }
    }
    forall i | 0 <= i < |more| && more[i].Result? ensures more[i].id in next {
      if i < k { assert blocks[..k][i] == more[i]; }
    }
  }

  lemma LatestSkips(blocks: seq<Block>, k: nat, obligations: Obligations)
    requires k < |blocks| && !blocks[k].Result? && Latest(blocks[..k], obligations)
    ensures Latest(blocks[..k+1], obligations)
  {
    var more := blocks[..k+1];
    forall id | id in obligations ensures exists i :: 0 <= i < |more| && Reports(more, i, id, obligations[id]) {
      var i :| 0 <= i < k && Reports(blocks[..k], i, id, obligations[id]);
      assert Reports(more, i, id, obligations[id]);
    }
    forall i | 0 <= i < |more| && more[i].Result? ensures more[i].id in obligations {
      if i < k { assert blocks[..k][i] == more[i]; }
    }
  }

  /** What the loop has accepted. */
  ghost predicate ParsedTo(blocks: seq<Block>, k: nat, count: Option<nat>, obligations: Obligations)
    requires k <= |blocks|
  {
    Consistent(blocks[..k]) && Counted(blocks[..k], count) && Latest(blocks[..k], obligations)
  }

  ghost predicate Run(blocks: seq<Block>, count: nat, obligations: Obligations) {
    Consistent(blocks) && Counted(blocks, Some(count)) && Latest(blocks, obligations) && count == |obligations|
  }

  lemma ParsedResult(blocks: seq<Block>, k: nat, count: Option<nat>, obligations: Obligations)
    requires k < |blocks| && blocks[k].Result? && ParsedTo(blocks, k, count, obligations)
    ensures var b := blocks[k];
            var ok := WellPlaced(b) && (b.id in obligations ==> SamePlace(obligations[b.id], b.obligation));
      && (ok ==> ParsedTo(blocks, k + 1, count, obligations[b.id := b.obligation]))
      && (!ok ==> !Consistent(blocks))
  {
    var b := blocks[k];
    LatestNext(blocks, k, obligations);
    CountedSkips(blocks, k, count);
    if b.id in obligations {
      var i :| 0 <= i < k && Reports(blocks[..k], i, b.id, obligations[b.id]);
      ConsistentNext(blocks, k, i);
    } else {
      ConsistentNew(blocks, k);
    }
  }

  lemma CountedSkips(blocks: seq<Block>, k: nat, count: Option<nat>)
    requires k < |blocks| && !blocks[k].Count? && Counted(blocks[..k], count)
    ensures Counted(blocks[..k+1], count)
  {
    if count.Some? {
      var i :| 0 <= i < k && blocks[..k][i] == Count(Some(count.value));
      assert blocks[..k+1][i] == Count(Some(count.value));
    } else {
      var more := blocks[..k+1];
      forall i | 0 <= i < |more| ensures !more[i].Count? {
        if i < k { assert blocks[..k][i] == more[i]; }
      }
    }
  }

  lemma ConsistentNext(blocks: seq<Block>, k: nat, i: nat)
    requires i < k < |blocks| && Consistent(blocks[..k]) && blocks[k].Result? && blocks[i].Result?
    requires blocks[i].id == blocks[k].id
    ensures WellPlaced(blocks[k]) && SamePlace(blocks[i].obligation, blocks[k].obligation) ==> Consistent(blocks[..k+1])
    ensures !(WellPlaced(blocks[k]) && SamePlace(blocks[i].obligation, blocks[k].obligation)) ==> !Consistent(blocks)
  {
    if WellPlaced(blocks[k]) && SamePlace(blocks[i].obligation, blocks[k].obligation) {
      var more := blocks[..k+1];
      forall j | 0 <= j < k && blocks[j].Result? && blocks[j].id == blocks[k].id
        ensures SamePlace(blocks[j].obligation, blocks[k].obligation)
      {
        assert blocks[..k][j] == blocks[j] && blocks[..k][i] == blocks[i];
      }
      forall a, b | 0 <= a < b < |more| && more[a].Result? && more[b].Result? && more[a].id == more[b].id
        ensures SamePlace(more[a].obligation, more[b].obligation)
      {
        if b < k { assert blocks[..k][a] == more[a] && blocks[..k][b] == more[b]; }
      }
      ConsistentRest(blocks, k);
    }
  }

  lemma ConsistentRest(blocks: seq<Block>, k: nat)
    requires k < |blocks| && Consistent(blocks[..k]) && blocks[k].Result? && WellPlaced(blocks[k])
    ensures var more := blocks[..k+1];
      && (forall i :: 0 <= i < |more| ==> !more[i].Unreadable? && (more[i].Count? ==> more[i].digits.Some?))
      && (forall i :: 0 <= i < |more| && more[i].Result? ==> WellPlaced(more[i]))
      && (forall i, j :: 0 <= i < j < |more| ==> !(more[i].Count? && more[j].Count?))
  {
    var more := blocks[..k+1];
    forall i | 0 <= i < k ensures more[i] == blocks[..k][i] { }
  }

  lemma ConsistentNew(blocks: seq<Block>, k: nat)
    requires k < |blocks| && Consistent(blocks[..k]) && blocks[k].Result?
    requires forall i :: 0 <= i < k && blocks[i].Result? ==> blocks[i].id != blocks[k].id
    ensures WellPlaced(blocks[k]) ==> Consistent(blocks[..k+1])
    ensures !WellPlaced(blocks[k]) ==> !Consistent(blocks)
  {
    if WellPlaced(blocks[k]) {
      ConsistentRest(blocks, k);
      var more := blocks[..k+1];
      forall i | 0 <= i < k ensures more[i] == blocks[..k][i] { }
    }
  }

  lemma ParsedCount(blocks: seq<Block>, k: nat, count: Option<nat>, obligations: Obligations)
    requires k < |blocks| && blocks[k].Count? && ParsedTo(blocks, k, count, obligations)
    ensures count.None? && blocks[k].digits.Some? ==> ParsedTo(blocks, k + 1, blocks[k].digits, obligations)
    ensures count.Some? || blocks[k].digits.None? ==> !Consistent(blocks)
  {
    if count.Some? {
      var i :| 0 <= i < k && blocks[..k][i] == Count(Some(count.value));
      assert blocks[i].Count?;
    } else if blocks[k].digits.Some? {
      LatestSkips(blocks, k, obligations);
      var more := blocks[..k+1];
      assert more[k] == Count(Some(blocks[k].digits.value));
      forall i | 0 <= i < k ensures more[i] == blocks[..k][i] { }
    }
  }

  lemma ParsedOther(blocks: seq<Block>, k: nat, count: Option<nat>, obligations: Obligations)
    requires k < |blocks| && blocks[k].Irrelevant? && ParsedTo(blocks, k, count, obligations)
    ensures ParsedTo(blocks, k + 1, count, obligations)
  {
    LatestSkips(blocks, k, obligations);
    CountedSkips(blocks, k, count);
    var more := blocks[..k+1];
    forall i | 0 <= i < k ensures more[i] == blocks[..k][i] { }
  }

  lemma LatestUnique(blocks: seq<Block>, a: Obligations, b: Obligations)
    requires Latest(blocks, a) && Latest(blocks, b)
    ensures a == b
  {
    forall id | id in a ensures id in b && b[id] == a[id] {
      var i :| 0 <= i < |blocks| && Reports(blocks, i, id, a[id]);
      var j :| 0 <= j < |blocks| && Reports(blocks, j, id, b[id]);
    }
    forall id | id in b ensures id in a {
      var j :| 0 <= j < |blocks| && Reports(blocks, j, id, b[id]);
    }
  }

  /** The loop of `parse`. */
  method ParseBlocks(blocks: seq<Block>) returns (r: Option<(Option<nat>, Obligations)>)
    ensures r.Some? <==> Consistent(blocks)
    ensures r.Some? ==> Counted(blocks, r.value.0) && Latest(blocks, r.value.1)
  {
    var count: Option<nat> := None;
    var obligations: Obligations := map[];
    assert blocks[..0] == [];
    for k := 0 to |blocks|
      invariant ParsedTo(blocks, k, count, obligations)
    {
      match blocks[k]
      case Count(digits) =>
        ParsedCount(blocks, k, count, obligations);
        if count.Some? || digits.None? { return None; }
        count := digits;
      case Result(id, column, endColumn, o) =>
        ParsedResult(blocks, k, count, obligations);
        if id < 1 || o.start < 1 || column < 1 || endColumn < 1 || o.end < o.start { return None; }
        if id in obligations && !SamePlace(obligations[id], o) { return None; }
        obligations := obligations[id := o];
      case Unreadable => return None;
      case Irrelevant => ParsedOther(blocks, k, count, obligations);
    }
    assert blocks[..|blocks|] == blocks;
    return Some((count, obligations));
  }

  /** `Evidence.parse`: the blocks tell of exactly as many obligations as they announce. */
  method Parse(blocks: seq<Block>) returns (r: Option<(nat, Obligations)>)
    ensures r.Some? ==> Run(blocks, r.value.0, r.value.1)
    ensures r.None? ==> forall count, obligations :: !Run(blocks, count, obligations)
  {
    var parsed := ParseBlocks(blocks);
    if parsed.None? { return None; }
    var (count, obligations) := parsed.value;
    if count.None? || count.value != |obligations| {
      forall n, o ensures !Run(blocks, n, o) { NoRun(blocks, count, obligations, n, o); }
      return None;
    }
    return Some((count.value, obligations));
  }

  lemma NoRun(blocks: seq<Block>, count: Option<nat>, obligations: Obligations, n: nat, o: Obligations)
    requires Consistent(blocks) && Counted(blocks, count) && Latest(blocks, obligations)
    requires count.None? || count.value != |obligations|
    ensures !Run(blocks, n, o)
  {
    if Counted(blocks, Some(n)) && Latest(blocks, o) {
      LatestUnique(blocks, obligations, o);
      var i :| 0 <= i < |blocks| && blocks[i] == Count(Some(n));
      if count.Some? { SameCount(blocks, count.value, n); }
    }
  }

  lemma SameCount(blocks: seq<Block>, m: nat, n: nat)
    requires Consistent(blocks) && Counted(blocks, Some(m)) && Counted(blocks, Some(n))
    ensures m == n
  {
    var i :| 0 <= i < |blocks| && blocks[i] == Count(Some(m));
    var j :| 0 <= j < |blocks| && blocks[j] == Count(Some(n));
    OneCount(blocks, i, j);
  }

  lemma OneCount(blocks: seq<Block>, i: nat, j: nat)
    requires Consistent(blocks) && i < |blocks| && j < |blocks| && blocks[i].Count? && blocks[j].Count?
    ensures i == j
  {
  }

  // --- A positive run -----------------------------------------------------------------------------------

  predicate Proved(o: Obligation) {
    (o.status.ProvedStatus? || o.status.TrivialStatus?) && !o.already
  }

  predicate Within(r: Range, o: Obligation) {
    r.start <= o.start <= o.end <= r.end
  }

  ghost predicate Covered(obligations: Obligations, ranges: map<string, Range>, name: string) {
    name in ranges && exists id :: id in obligations && Within(ranges[name], obligations[id])
  }

  ghost predicate EveryProved(obligations: Obligations) {
    forall id :: id in obligations ==> Proved(obligations[id])
  }

  lemma ProvedAt(obligations: Obligations, id: int)
    requires EveryProved(obligations) && id in obligations
    ensures Proved(obligations[id])
  {
  }

  ghost predicate Positive(count: nat, obligations: Obligations, status: int, minimum: int, ranges: map<string, Range>,
                           names: seq<string>) {
    && status == 0 && count >= minimum
    && EveryProved(obligations)
    && (forall i :: 0 <= i < |names| ==> Covered(obligations, ranges, names[i]))
  }

  /** `Evidence.positive`. */
  method AdmitPositive(count: nat, obligations: Obligations, status: int, minimum: int, ranges: map<string, Range>,
                       names: seq<string>)
    returns (ok: bool)
    ensures ok <==> Positive(count, obligations, status, minimum, ranges, names)
  {
    if status != 0 || count < minimum { return false; }
    if exists id :: id in obligations && !Proved(obligations[id]) { return false; }
    for i := 0 to |names|
      invariant forall k :: 0 <= k < i ==> Covered(obligations, ranges, names[k])
    {
      var name := names[i];
      if name !in ranges { return false; }
      if !(exists id :: id in obligations && Within(ranges[name], obligations[id])) { return false; }
    }
    return true;
  }

  /** An obligation for each name, no two of them the same. */
  ghost predicate Distinguishes(obligations: Obligations, ranges: map<string, Range>, names: seq<string>,
                                ids: seq<int>) {
    && |ids| == |names| && Distinct(ids)
    && forall i :: 0 <= i < |ids| ==> names[i] in ranges && ids[i] in obligations
                                      && Within(ranges[names[i]], obligations[ids[i]])
  }

  ghost predicate Disjoint(ranges: map<string, Range>) {
    forall m, n, line :: m in ranges && n in ranges && m != n ==> !(Inside(ranges[m], line) && Inside(ranges[n], line))
  }

  lemma TextRangesDisjoint(text: string, ranges: map<string, Range>)
    requires TextRanges(text, ranges)
    ensures Disjoint(ranges)
  {
    forall m, n, line | m in ranges && n in ranges && m != n
      ensures !(Inside(ranges[m], line) && Inside(ranges[n], line))
    {
      RangesDisjoint(text, ranges, m, n, line);
    }
  }

  lemma {:induction false} Distinguish(obligations: Obligations, ranges: map<string, Range>, names: seq<string>)
    returns (ids: seq<int>)
    requires Disjoint(ranges) && Distinct(names)
    requires forall i :: 0 <= i < |names| ==> Covered(obligations, ranges, names[i])
    ensures Distinguishes(obligations, ranges, names, ids)
    decreases |names|
  {
    if names == [] { return []; }
    var before, last := names[..|names|-1], names[|names|-1];
    ids := Distinguish(obligations, ranges, before);
    assert Covered(obligations, ranges, last);
    var id :| id in obligations && Within(ranges[last], obligations[id]);
    forall i | 0 <= i < |ids| ensures ids[i] != id {
      assert before[i] == names[i] != last;
      assert !(Inside(ranges[before[i]], obligations[id].start) && Inside(ranges[last], obligations[id].start));
    }
    ids := ids + [id];
  }

  lemma IdsFit(ids: seq<int>, obligations: Obligations)
    requires Distinct(ids) && forall i :: 0 <= i < |ids| ==> ids[i] in obligations
    ensures |ids| <= |obligations|
    decreases |ids|
  {
    if ids != [] {
      var before, last := ids[..|ids|-1], ids[|ids|-1];
      var rest := map id | id in obligations && id != last :: obligations[id];
      assert rest.Keys == obligations.Keys - {last};
      IdsFit(before, rest);
    }
  }

  lemma DisjointCovers(count: nat, obligations: Obligations, status: int, minimum: int, ranges: map<string, Range>,
                       names: seq<string>)
    returns (ids: seq<int>)
    requires count == |obligations| && Disjoint(ranges) && Distinct(names)
    requires Positive(count, obligations, status, minimum, ranges, names)
    ensures Distinguishes(obligations, ranges, names, ids)
    ensures forall i :: 0 <= i < |ids| ==> Proved(obligations[ids[i]])
    ensures |names| <= count
  {
    ids := Distinguish(obligations, ranges, names);
    IdsFit(ids, obligations);
    forall i | 0 <= i < |ids| ensures Proved(obligations[ids[i]]) { ProvedAt(obligations, ids[i]); }
  }

  /**
   A run that is admitted for a list of theorems has a proved obligation of its own for each of them, so
   at least as many as there are theorems.
   */
  lemma PositiveCoversTheorems(blocks: seq<Block>, count: nat, obligations: Obligations, status: int, minimum: int,
                               text: string, ranges: map<string, Range>, names: seq<string>) returns (ids: seq<int>)
    requires Run(blocks, count, obligations) && TextRanges(text, ranges) && Distinct(names)
    requires Positive(count, obligations, status, minimum, ranges, names)
    ensures Distinguishes(obligations, ranges, names, ids)
    ensures forall i :: 0 <= i < |ids| ==> Proved(obligations[ids[i]])
    ensures |names| <= count
  {
    TextRangesDisjoint(text, ranges);
    ids := DisjointCovers(count, obligations, status, minimum, ranges, names);
  }
}
