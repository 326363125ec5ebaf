/** The receipt and counter transaction of `examples/hooks/counter_store.py`. */
module CounterStore {
  import opened Prelude
  import opened TextEncoding

  const LIMIT: nat := 9223372036854775807

  /** A payload digest. */
  type Digest = string

  /** The two tables. */
  datatype Tables = Tables(receipts: map<string, Digest>, counters: map<string, nat>)

  const EMPTY := Tables(map[], map[])

  // 64 hexadecimal digits in lower case
  predicate IsIntent(s: string) {
    |s| == 64 && forall i :: 0 <= i < |s| ==> '0' <= s[i] <= '9' || 'a' <= s[i] <= 'f'
  }

  predicate IsCounter(s: string) {
    s != "" && |Utf8Of(s)| <= 256
  }

  ghost predicate Injective(digest: string -> Digest) {
    forall a, b :: digest(a) == digest(b) ==> a == b
  }

  // --- What is counted --------------------------------------------------------------------------

  function Value(t: Tables, counter: string): nat {
    if counter in t.counters then t.counters[counter] else 0
  }

  /** The intents whose receipt is for `counter`. */
  ghost function Bound(digest: string -> Digest, t: Tables, counter: string): set<string> {
    set i | i in t.receipts && t.receipts[i] == digest(counter)
  }

  /** Each counter is the number of its receipts, and every receipt belongs to a counter that has a row. */
  ghost predicate Consistent(digest: string -> Digest, t: Tables) {
    && (forall c :: Value(t, c) == |Bound(digest, t, c)|)
    && (forall i :: i in t.receipts ==> exists c :: c in t.counters && t.receipts[i] == digest(c))
    && (forall c :: c in t.counters ==> t.counters[c] <= LIMIT)
  }

  function Added(digest: string -> Digest, t: Tables, intent: string, counter: string): Tables {
    Tables(t.receipts[intent := digest(counter)], t.counters[counter := Value(t, counter) + 1])
  }

  lemma AddedBound(digest: string -> Digest, t: Tables, intent: string, counter: string, c: string)
    requires Injective(digest) && intent !in t.receipts
    ensures Bound(digest, Added(digest, t, intent, counter), c)
            == Bound(digest, t, c) + if c == counter then {intent} else {}
  {
  }

  lemma AddedConsistent(digest: string -> Digest, t: Tables, intent: string, counter: string)
    requires Injective(digest) && Consistent(digest, t) && intent !in t.receipts && Value(t, counter) < LIMIT
    ensures Consistent(digest, Added(digest, t, intent, counter))
  {
    var u := Added(digest, t, intent, counter);
    forall c ensures Value(u, c) == |Bound(digest, u, c)| { AddedBound(digest, t, intent, counter, c); }
    forall i | i in u.receipts ensures exists c :: c in u.counters && u.receipts[i] == digest(c) {
      if i == intent {
        assert counter in u.counters;
      } else {
        var c :| c in t.counters && t.receipts[i] == digest(c);
        assert c in u.counters;
      }
    }
  }

  // --- One call ---------------------------------------------------------------------------------

  /** Where a crash ends a call: SQLite's commit is atomic, so before it or after it. */
  datatype Fate = Answered | LostBefore | LostAfter

  datatype Outcome =
    | Refused             // an invalid identity or counter name
    | Reused              // the identity has a receipt for another operation
    | Exhausted           // the counter is at its limit
    | Broken              // a receipt without a counter row
    | Done(applied: bool, value: nat)
    | Lost                // no answer

  /** The tables after a call, and what it answers. */
  function Called(digest: string -> Digest, t: Tables, intent: string, counter: string, fate: Fate): (Tables, Outcome) {
    if !IsIntent(intent) || !IsCounter(counter) then (t, Refused)
    else if intent in t.receipts && t.receipts[intent] != digest(counter) then (t, Reused)
    else if intent in t.receipts then
      if counter !in t.counters then (t, Broken)
      else (t, if fate.Answered? then Done(false, t.counters[counter]) else Lost)
    else if Value(t, counter) >= LIMIT then (t, Exhausted)
    else if fate.LostBefore? then (t, Lost)
    else (Added(digest, t, intent, counter), if fate.Answered? then Done(true, Value(t, counter) + 1) else Lost)
  }

  /** The database: what is committed, and the tables of the transaction that is open. */
  class Store {
    const digest: string -> Digest
    var committed: Tables
    var open: Option<Tables>

    constructor (digest: string -> Digest)
      ensures this.digest == digest && committed == EMPTY && open == None
    {
      this.digest, committed, open := digest, EMPTY, None;
    }

    /** The statements between BEGIN and COMMIT; `Some` is the exception that ROLLBACK answers. */
    method Statements(intent: string, counter: string) returns (failed: Option<Outcome>, applied: bool, value: nat)
      requires open.Some?
      modifies this`open
      ensures open.Some? && applied == (intent !in old(open).value.receipts)
      ensures failed.None? && applied ==> Value(old(open).value, counter) < LIMIT
      ensures failed.None? ==>
                open.value == if applied then Added(digest, old(open).value, intent, counter) else old(open).value
      ensures failed.None? ==> value == Value(open.value, counter)
      ensures failed.None? && !applied ==>
                old(open).value.receipts[intent] == digest(counter) && counter in old(open).value.counters
      ensures failed == Some(Reused) ==> !applied && old(open).value.receipts[intent] != digest(counter)
      ensures failed == Some(Exhausted) ==> applied && Value(old(open).value, counter) >= LIMIT
      ensures failed == Some(Broken) ==>
                !applied && old(open).value.receipts[intent] == digest(counter) && counter !in old(open).value.counters
      ensures failed.Some? ==> failed.value in [Reused, Exhausted, Broken]
    {
      var t := open.value;
      applied, value := intent !in t.receipts, 0;
      if !applied && t.receipts[intent] != digest(counter) { return Some(Reused), applied, value; }
      if applied {
        var current := if counter in t.counters then t.counters[counter] else 0;
        if current >= LIMIT { return Some(Exhausted), applied, value; }
        open := Some(open.value.(receipts := open.value.receipts[intent := digest(counter)]));
        open := Some(open.value.(counters := open.value.counters[counter := current + 1]));
      }
      if counter !in open.value.counters { return Some(Broken), applied, value; }
      return None, applied, open.value.counters[counter];
    }

    /** `increment`. A transaction that a crash leaves open is gone when the database is opened again. */
    method Increment(intent: string, counter: string, fate: Fate) returns (outcome: Outcome)
      requires open.None?
      modifies this`committed, this`open
      ensures open.None?
      ensures (committed, outcome) == Called(digest, old(committed), intent, counter, fate)
    {
      if !IsIntent(intent) || !IsCounter(counter) { return Refused; }
      open := Some(committed);
      var failed, applied, value := Statements(intent, counter);
      if failed.Some? || fate.LostBefore? {
        open := None;
        return if failed.Some? then failed.value else Lost;
      }
      committed, open := open.value, None;
      return if fate.Answered? then Done(applied, value) else Lost;
    }
  }

  // --- Histories ----------------------------------------------------------------------------------

  /** A serialized history of calls, by any callers. */
  datatype Call = Call(intent: string, counter: string, fate: Fate)

  function After(digest: string -> Digest, calls: seq<Call>): Tables {
    if calls == [] then EMPTY
    else
      var last := calls[|calls|-1];
      Called(digest, After(digest, calls[..|calls|-1]), last.intent, last.counter, last.fate).0
  }

  /** The `k`-th call changed the tables. */
  predicate Counts(digest: string -> Digest, calls: seq<Call>, k: nat)
    requires k < |calls|
  {
    var t := After(digest, calls[..k]);
    Called(digest, t, calls[k].intent, calls[k].counter, calls[k].fate).0 != t
  }

  lemma CalledKeeps(digest: string -> Digest, t: Tables, call: Call)
    requires Injective(digest) && Consistent(digest, t)
    ensures var (u, outcome) := Called(digest, t, call.intent, call.counter, call.fate);
      && Consistent(digest, u) && !outcome.Broken?
      && (u == t || (call.intent !in t.receipts && u == Added(digest, t, call.intent, call.counter)))
      && (outcome == Reused || outcome == Exhausted || outcome == Refused || call.intent in t.receipts ==> u == t)
  {
    if call.intent in t.receipts && t.receipts[call.intent] == digest(call.counter) {
      var c :| c in t.counters && t.receipts[call.intent] == digest(c);
    } else if call.intent !in t.receipts && Value(t, call.counter) < LIMIT {
      AddedConsistent(digest, t, call.intent, call.counter);
    }
  }

  /**
   The answer to a call: the value is the counter's afterwards, it is applied exactly when the tables change, and
   that adds one to this counter and to no other. A new identity below the limit is applied unless the commit is lost.
   */
  lemma CalledAnswers(digest: string -> Digest, t: Tables, call: Call)
    requires Injective(digest) && Consistent(digest, t)
    ensures var (u, outcome) := Called(digest, t, call.intent, call.counter, call.fate);
      && (outcome.Done? ==> call.fate.Answered? && outcome.applied == (u != t)
                            && outcome.value == Value(u, call.counter))
      && (u != t ==>
            && u.receipts == t.receipts[call.intent := digest(call.counter)]
            && forall c :: Value(u, c) == Value(t, c) + if c == call.counter then 1 else 0)
      && (u != t <==> IsIntent(call.intent) && IsCounter(call.counter) && call.intent !in t.receipts
                      && Value(t, call.counter) < LIMIT && !call.fate.LostBefore?)
      && (outcome.Lost? ==> !call.fate.Answered?)
      && (outcome.Refused? <==> !IsIntent(call.intent) || !IsCounter(call.counter))
      && (outcome.Reused? <==> !outcome.Refused? && call.intent in t.receipts
                               && t.receipts[call.intent] != digest(call.counter))
      && (outcome.Exhausted? <==> !outcome.Refused? && call.intent !in t.receipts && Value(t, call.counter) == LIMIT)
  {
    CalledKeeps(digest, t, call);
    assert call.intent !in t.receipts ==> Added(digest, t, call.intent, call.counter) != t by {
      assert call.intent in Added(digest, t, call.intent, call.counter).receipts;
    }
  }

  lemma {:induction false} HistoryConsistent(digest: string -> Digest, calls: seq<Call>)
    requires Injective(digest)
    ensures Consistent(digest, After(digest, calls))
    decreases |calls|
  {
    if calls == [] {
      forall c ensures Bound(digest, EMPTY, c) == {} { }
    } else {
      HistoryConsistent(digest, calls[..|calls|-1]);
      CalledKeeps(digest, After(digest, calls[..|calls|-1]), calls[|calls|-1]);
    }
  }

  /** The calls of a history that changed `counter`. */
  ghost function Changes(digest: string -> Digest, calls: seq<Call>, counter: string): set<nat> {
    set k: nat | k < |calls| && Counts(digest, calls, k) && calls[k].counter == counter
  }

  lemma CountsPrefix(digest: string -> Digest, calls: seq<Call>, n: nat, k: nat)
    requires k < n <= |calls|
    ensures Counts(digest, calls[..n], k) == Counts(digest, calls, k)
  {
    assert calls[..n][..k] == calls[..k];
  }

  /** A receipt stays, and it is the intent's one and only change. */
  lemma {:induction false} CountedOnce(digest: string -> Digest, calls: seq<Call>, j: nat, k: nat)
    requires Injective(digest) && j < k < |calls| && Counts(digest, calls, j) && Counts(digest, calls, k)
    ensures calls[j].intent != calls[k].intent
  {
    HistoryConsistent(digest, calls[..j]);
    CalledKeeps(digest, After(digest, calls[..j]), calls[j]);
    assert calls[..j+1][..j] == calls[..j];
    ReceiptStays(digest, calls, j + 1, k, calls[j].intent);
    HistoryConsistent(digest, calls[..k]);
    CalledKeeps(digest, After(digest, calls[..k]), calls[k]);
  }

  lemma ReceiptKept(digest: string -> Digest, t: Tables, call: Call, intent: string)
    requires intent in t.receipts
    ensures intent in Called(digest, t, call.intent, call.counter, call.fate).0.receipts
  {
  }

  lemma {:induction false} ReceiptStays(digest: string -> Digest, calls: seq<Call>, j: nat, k: nat, intent: string)
    requires j <= k <= |calls| && intent in After(digest, calls[..j]).receipts
    ensures intent in After(digest, calls[..k]).receipts
    decreases k
  {
    if j < k {
      ReceiptStays(digest, calls, j, k - 1, intent);
      assert calls[..k][..k-1] == calls[..k-1];
      ReceiptKept(digest, After(digest, calls[..k-1]), calls[k-1], intent);
    }
  }

  lemma ChangesLast(digest: string -> Digest, calls: seq<Call>, counter: string)
    requires calls != []
    ensures var n := |calls| - 1;
      Changes(digest, calls, counter)
      == Changes(digest, calls[..n], counter)
         + if Counts(digest, calls, n) && calls[n].counter == counter then {n} else {}
  {
    var n := |calls| - 1;
    forall k: nat | k < n ensures Counts(digest, calls[..n], k) == Counts(digest, calls, k) {
      CountsPrefix(digest, calls, n, k);
    }
  }

  lemma ValueStep(digest: string -> Digest, t: Tables, call: Call, counter: string)
    requires Injective(digest) && Consistent(digest, t)
    ensures var u := Called(digest, t, call.intent, call.counter, call.fate).0;
      Value(u, counter) == Value(t, counter) + if u != t && call.counter == counter then 1 else 0
  {
    CalledKeeps(digest, t, call);
  }

  /** Each counter's value is the number of calls that changed it. */
  lemma {:induction false} ValueIsChanges(digest: string -> Digest, calls: seq<Call>, counter: string)
    requires Injective(digest)
    ensures Value(After(digest, calls), counter) == |Changes(digest, calls, counter)|
    decreases |calls|
  {
    if calls != [] {
      var n := |calls| - 1;
      ValueIsChanges(digest, calls[..n], counter);
      HistoryConsistent(digest, calls[..n]);
      ValueStep(digest, After(digest, calls[..n]), calls[n], counter);
      ChangesLast(digest, calls, counter);
    }
  }

  /** Whatever happened before, an intent with a receipt changes nothing and finds its counter's row. */
  lemma ReplayIsIdempotent(digest: string -> Digest, calls: seq<Call>, intent: string, counter: string)
    requires Injective(digest) && IsIntent(intent) && IsCounter(counter)
    requires intent in After(digest, calls).receipts && After(digest, calls).receipts[intent] == digest(counter)
    ensures var t := After(digest, calls);
      t.counters.Keys >= {counter} && Called(digest, t, intent, counter, Answered)
        == (t, Done(false, Value(t, counter)))
  {
    HistoryConsistent(digest, calls);
    CalledKeeps(digest, After(digest, calls), Call(intent, counter, Answered));
  }
}
