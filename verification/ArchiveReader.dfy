/** `extract_archive` (release_manifest.py) as it runs: a bounded stream, and a destination that it fills or removes. */
module ArchiveReader {
  import opened Prelude
  import opened Ustar
  import opened Paths
  import opened ArchiveFormat

  const MIB := 0x10_0000

  /**
   The decompressed stream behind `bounded_read`. A damaged compressed layer raises when a read
   reaches past what can still be decompressed.
   */
  class Stream {
    const content: Bytes
    const damaged: bool
    const limit: nat
    var expanded: nat

    constructor (content: Bytes, damaged: bool, limit: nat)
      ensures this.content == content && this.damaged == damaged && this.limit == limit && expanded == 0
    {
      this.content, this.damaged, this.limit, this.expanded := content, damaged, limit, 0;
    }

    predicate Fine() {
      !damaged && |content| <= limit
    }

    ghost predicate Valid()
      reads this
    {
      expanded <= |content|
    }

    ghost function Rest(): Bytes
      requires Valid()
      reads this
    {
      content[expanded..]
    }

    /** At most `count` bytes; `None` for any exception. */
    method BoundedRead(count: nat) returns (data: Option<Bytes>)
      requires Valid() && expanded <= limit
      modifies this
      ensures Valid() && old(expanded) <= expanded <= limit + MIB
      ensures data.None? ==> count > MIB || !Fine()
      ensures data.Some? ==> data.value <= old(Rest()) && expanded == old(expanded) + |data.value| <= limit
      ensures data.Some? ==> |data.value| == if count < |old(Rest())| then count else |old(Rest())|
      ensures data.Some? && |data.value| < count ==> !damaged
    {
      if count > MIB { return None; }
      if damaged && |content| - expanded < count { return None; }
      var n := if count < |content| - expanded then count else |content| - expanded;
      var bytes := content[expanded..expanded + n];
      assert bytes == content[expanded..][..n];
      expanded := expanded + n;
      if expanded > limit { return None; }
      return Some(bytes);
    }
  }

  datatype Outcome = Failed | Ended | Continued

  /** One extraction: the source's local variables, and its destination (`None` while it does not exist). */
  class Extraction {
    const stream: Stream
    const maximum: nat
    var destination: Option<Tree>
    var seen: set<Bytes>
    var total: nat
    var written: nat

    constructor (destination: Option<Tree>, content: Bytes, damaged: bool, maximum: nat)
      ensures fresh(stream) && stream.Valid() && stream.expanded == 0 && this.maximum == maximum
      ensures stream.content == content && stream.damaged == damaged && stream.limit == Limit(maximum)
      ensures this.destination == destination && seen == {} && total == 0 && written == 0
    {
      this.stream := new Stream(content, damaged, Limit(maximum));
      this.maximum, this.destination := maximum, destination;
      this.seen, this.total, this.written := {}, 0, 0;
    }

    ghost predicate Valid()
      reads this, stream
    {
      && stream.Valid()
      && stream.limit == Limit(maximum)
      && stream.expanded <= stream.limit
      && destination.Some?
      && written <= total <= maximum
    }

    ghost function State(): Progress
      requires destination.Some?
      reads this
    {
      Progress(seen, total, destination.value)
    }

    /** The bounds that hold even after a failed read. */
    ghost predicate Stopped()
      reads this, stream
    {
      stream.expanded <= stream.limit + MIB && written <= maximum
    }

    /** The part after the first zero block. */
    method Trailing() returns (outcome: Outcome)
      requires Valid()
      modifies stream
      ensures Stopped() && outcome != Continued && old(stream.expanded) <= stream.expanded
      ensures outcome == Failed ==> !stream.Fine() || !Zeros(old(stream.Rest())) || |old(stream.Rest())| < BLOCK
      ensures outcome == Ended ==> stream.Fine() && Zeros(old(stream.Rest())) && |old(stream.Rest())| >= BLOCK
    {
      ghost var rest := stream.Rest();
      var second := stream.BoundedRead(BLOCK);
      if second.None? || |second.value| != BLOCK || !Zeros(second.value) { return Failed; }
      ghost var start := stream.expanded - BLOCK;
      while true
        invariant stream.Valid() && stream.expanded <= stream.limit
        invariant start + BLOCK <= stream.expanded && rest == stream.content[start..]
        invariant Zeros(stream.content[start..stream.expanded])
        decreases |stream.content| - stream.expanded
      {
        ghost var before := stream.expanded;
        var trailing := stream.BoundedRead(MIB);
        if trailing.None? { return Failed; }
        if trailing.value == [] {
          assert rest == stream.content[start..stream.expanded];
          return Ended;
        }
        assert trailing.value == stream.content[before..stream.expanded];
        if !Zeros(trailing.value) {
          var i :| 0 <= i < |trailing.value| && trailing.value[i] != NUL;
          assert rest[before - start + i] == trailing.value[i];
          return Failed;
        }
        ZerosAppend(stream.content, start, before, stream.expanded);
      }
    }

    static lemma ZerosAppend(s: Bytes, i: nat, j: nat, k: nat)
      requires i <= j <= k <= |s| && Zeros(s[i..j]) && Zeros(s[j..k])
      ensures Zeros(s[i..k])
    {
      forall x | 0 <= x < k - i ensures s[i..k][x] == NUL {
        if x < j - i { assert s[i..j][x] == NUL; } else { assert s[j..k][x - (j - i)] == NUL; }
      }
    }

    /** Writes a member's payload block by block into a file that did not exist. */
    method Payload(name: Bytes, size: nat) returns (ok: bool)
      requires Valid() && name !in destination.value && written + size <= total
      modifies this`destination, this`written, stream
      ensures Stopped() && stream.Valid() && destination.Some? && old(stream.expanded) <= stream.expanded
      ensures !ok ==> !stream.Fine() || |old(stream.Rest())| < size
      ensures ok ==> Valid() && |old(stream.Rest())| >= size && stream.expanded == old(stream.expanded) + size
      ensures ok ==> destination == Some(old(destination).value[name := File(old(stream.Rest())[..size])])
    {
      ghost var rest := stream.Rest();
      ghost var start := stream.expanded;
      var remaining: nat := size;
      var content: Bytes := [];
      var made := destination.value;
      destination := Some(made[name := File(content)]);
      while remaining > 0
        invariant Valid() && remaining <= size
        invariant start + size - remaining == stream.expanded && rest == stream.content[start..]
        invariant content == stream.content[start..stream.expanded]
        invariant destination == Some(made[name := File(content)])
        invariant written + remaining <= total
      {
        var count := if remaining < MIB then remaining else MIB;
        ghost var before := stream.expanded;
        var block := stream.BoundedRead(count);
        if block.None? || block.value == [] { return false; }
        assert block.value == stream.content[before..stream.expanded];
        content := content + block.value;
        destination := Some(made[name := File(content)]);
        written := written + |block.value|;
        remaining := remaining - |block.value|;
      }
      assert remaining == 0 && |rest| == |stream.content| - start;
      assert stream.content[start..][..size] == stream.content[start..start + size];
      return true;
    }

    /** The padding after a payload. */
    method Skip(count: nat) returns (ok: bool)
      requires Valid() && count <= MIB
      modifies stream
      ensures Stopped() && stream.Valid() && old(stream.expanded) <= stream.expanded
      ensures !ok ==> !stream.Fine() || |old(stream.Rest())| < count
      ensures ok ==> Valid() && |old(stream.Rest())| >= count && stream.expanded == old(stream.expanded) + count
    {
      var data := stream.BoundedRead(count);
      return data.Some? && |data.value| == count;
    }

    /** Everything after an admitted header. */
    method Take(m: Member) returns (ok: bool)
      requires Valid() && Admitted(m, State(), maximum)
      modifies this, stream
      ensures Stopped() && destination.Some? && old(stream.expanded) <= stream.expanded
      ensures ok ==> Valid()
      ensures ok ==> Consumes(old(State()), m, old(stream.Rest()), stream.expanded - old(stream.expanded), State())
      ensures !ok ==> !stream.Fine() || Lacks(old(State()), m, old(stream.Rest()))
    {
      var name := PathOf(m);
      seen := seen + {name};
      if m.IsDirectory() {
        var made := MakeDirectories(destination.value, Parents(name) + {name});
        if made.None? { return false; }
        destination := made;
        return true;
      }
      total := total + m.size;
      var made := MakeDirectories(destination.value, Parents(name));
      if made.None? || name in made.value { return false; }
      destination := made;
      ghost var rest := stream.Rest();
      ok := Payload(name, m.size);
      if !ok { return false; }
      assert stream.Rest() == rest[m.size..];
      ok := Skip(Padding(m.size));
    }

    /** What a member leaves when it goes through: `NextOf`, with the payload counted from the header's end. */
    ghost predicate Consumes(p: Progress, m: Member, payload: Bytes, used: int, q: Progress)
      requires 0 <= m.size
    {
      var made := Enter(p.tree, m);
      && made.Some?
      && q.seen == p.seen + {PathOf(m)}
      && if m.IsDirectory() then used == 0 && q.total == p.total && q.tree == made.value
         else
           && used == m.size + Padding(m.size) <= |payload|
           && q.total == p.total + m.size
           && q.tree == made.value[PathOf(m) := File(payload[..m.size])]
    }

    ghost predicate Lacks(p: Progress, m: Member, payload: Bytes)
      requires 0 <= m.size
    {
      Enter(p.tree, m).None? || (!m.IsDirectory() && |payload| < m.size + Padding(m.size))
    }

    /** How a turn goes from its header on: `used` and `q` are what it consumes and leaves when it goes through. */
    ghost predicate Proceeded(header: Bytes, p: Progress, rest: Bytes, outcome: Outcome, used: int, q: Progress)
      requires |header| == BLOCK
    {
      var m := Decode(header);
      match outcome
      case Failed =>
        || !stream.Fine()
        || if Zeros(header) then !Zeros(rest) || |rest| < BLOCK
           else m.None? || !Admitted(m.value, p, maximum) || Lacks(p, m.value, rest)
      case Ended => stream.Fine() && q.tree == p.tree && Zeros(header) && Zeros(rest) && |rest| >= BLOCK
      case Continued =>
        !Zeros(header) && m.Some? && Admitted(m.value, p, maximum) && Consumes(p, m.value, rest, used, q)
    }

    /** The same from the whole turn's start. */
    ghost predicate Turned(all: Bytes, p: Progress, outcome: Outcome, used: int, q: Progress) {
      if |all| < BLOCK then outcome == Failed
      else Proceeded(all[..BLOCK], p, all[BLOCK..], outcome, used - BLOCK, q)
    }

    lemma ConsumesIsNextOf(all: Bytes, m: Member, p: Progress, used: int, q: Progress)
      requires |all| >= BLOCK && 0 <= m.size && Consumes(p, m, all[BLOCK..], used - BLOCK, q)
      ensures used >= BLOCK && NextOf(all, m, p) == More(used, q)
    {
      Slices(all, m.size);
    }

    lemma ContinuedIsMore(all: Bytes, p: Progress, used: int, q: Progress)
      requires |all| >= BLOCK && Proceeded(all[..BLOCK], p, all[BLOCK..], Continued, used - BLOCK, q)
      ensures used >= BLOCK && Next(all, p, maximum) == More(used, q)
    {
      ConsumesIsNextOf(all, Decode(all[..BLOCK]).value, p, used, q);
    }

    /** The reader's turn is the one that `Next` describes. */
    lemma TurnedIsNext(all: Bytes, p: Progress, outcome: Outcome, used: int, q: Progress)
      requires Turned(all, p, outcome, used, q)
      ensures outcome == Failed ==> !stream.Fine() || Next(all, p, maximum) == Refuse
      ensures outcome == Ended ==> stream.Fine() && q.tree == p.tree && Next(all, p, maximum) == Finish
      ensures outcome == Continued ==> used >= 0 && Next(all, p, maximum) == More(used, q)
    {
      if |all| >= BLOCK {
        if outcome.Continued? {
          ContinuedIsMore(all, p, used, q);
        } else if Zeros(all[..BLOCK]) {
          ZerosSplit(all);
        }
      }
    }

    static lemma Slices(all: Bytes, size: int)
      requires |all| >= BLOCK
      ensures 0 <= size <= |all| - BLOCK ==> all[BLOCK..][..size] == all[BLOCK..BLOCK + size]
    {
    }

    static lemma ZerosSplit(rest: Bytes)
      requires |rest| >= BLOCK && Zeros(rest[..BLOCK])
      ensures Zeros(rest) <==> Zeros(rest[BLOCK..])
    {
      if Zeros(rest[BLOCK..]) {
        assert rest[0..BLOCK] == rest[..BLOCK] && rest[BLOCK..|rest|] == rest[BLOCK..];
        ZerosAppend(rest, 0, BLOCK, |rest|);
        assert rest[0..|rest|] == rest;
      }
      if Zeros(rest) {
        forall i | 0 <= i < |rest| - BLOCK ensures rest[BLOCK..][i] == NUL { assert rest[BLOCK + i] == NUL; }
      }
    }

    /** A turn from its header on. */
    method Proceed(header: Bytes) returns (outcome: Outcome)
      requires Valid() && |header| == BLOCK
      modifies this, stream
      ensures Stopped() && destination.Some? && old(stream.expanded) <= stream.expanded
      ensures outcome == Continued ==> Valid()
      ensures Proceeded(header, old(State()), old(stream.Rest()), outcome, stream.expanded - old(stream.expanded),
                        State())
    {
      if Zeros(header) {
        outcome := Trailing();
        return;
      }
      var m := Decode(header);
      if m.None? || !Admitted(m.value, Progress(seen, total, destination.value), maximum) { return Failed; }
      var ok := Take(m.value);
      return if ok then Continued else Failed;
    }

    /** One turn of the loop. */
    method Turn() returns (outcome: Outcome)
      requires Valid()
      modifies this, stream
      ensures Stopped() && destination.Some? && old(stream.expanded) <= stream.expanded
      ensures outcome == Continued ==> Valid() && old(stream.expanded) < stream.expanded
      ensures Turned(old(stream.Rest()), old(State()), outcome, stream.expanded - old(stream.expanded), State())
    {
      ghost var all, p := stream.Rest(), State();
      var header := stream.BoundedRead(BLOCK);
      if header.None? || |header.value| != BLOCK { return Failed; }
      assert header.value == all[..BLOCK] && stream.Rest() == all[BLOCK..];
      outcome := Proceed(header.value);
    }

    lemma FailedMembers(all: Bytes, p: Progress, used: int, q: Progress)
      requires Turned(all, p, Failed, used, q)
      ensures !stream.Fine() || Members(all, p, maximum) == None
    {
      TurnedIsNext(all, p, Failed, used, q);
    }

    lemma EndedMembers(all: Bytes, p: Progress, used: int, q: Progress)
      requires Turned(all, p, Ended, used, q)
      ensures stream.Fine() && Members(all, p, maximum) == Some(q.tree)
    {
      TurnedIsNext(all, p, Ended, used, q);
    }

    lemma ContinuedMembers(all: Bytes, p: Progress, used: int, q: Progress, rest: Bytes)
      requires Turned(all, p, Continued, used, q) && 0 <= used <= |all| && rest == all[used..]
      ensures Members(all, p, maximum) == Members(rest, q, maximum)
    {
      TurnedIsNext(all, p, Continued, used, q);
    }

    /** A turn, in terms of what the loop as a whole gives. */
    method Step() returns (outcome: Outcome)
      requires Valid()
      modifies this, stream
      ensures Stopped() && destination.Some? && old(stream.expanded) <= stream.expanded
      ensures outcome == Continued ==> Valid() && old(stream.expanded) < stream.expanded
      ensures Stepped(Members(old(stream.Rest()), old(State()), maximum), outcome,
                      if outcome.Continued? then stream.Rest() else [], State())
    {
      ghost var all, p, at := stream.Rest(), State(), stream.expanded;
      outcome := Turn();
      ghost var used := stream.expanded - at;
      if outcome.Continued? { LaterRest(stream.content, at, stream.expanded); }
      TurnedIsStepped(all, p, outcome, used, State(), if outcome.Continued? then stream.Rest() else []);
    }

    static lemma LaterRest(content: Bytes, at: nat, now: nat)
      requires at <= now <= |content|
      ensures content[now..] == content[at..][now - at..]
    {
    }

    /** What the loop as a whole gives is nothing, or what it has, or what it gives from here on. */
    ghost predicate Stepped(whole: Option<Tree>, outcome: Outcome, rest: Bytes, q: Progress) {
      match outcome
      case Failed => !stream.Fine() || whole == None
      case Ended => stream.Fine() && whole == Some(q.tree)
      case Continued => whole == Members(rest, q, maximum)
    }

    lemma TurnedIsStepped(all: Bytes, p: Progress, outcome: Outcome, used: int, q: Progress, rest: Bytes)
      requires Turned(all, p, outcome, used, q)
      requires outcome.Continued? ==> 0 <= used <= |all| && rest == all[used..]
      ensures Stepped(Members(all, p, maximum), outcome, rest, q)
    {
      match outcome
      case Failed => FailedMembers(all, p, used, q);
      case Ended => EndedMembers(all, p, used, q);
      case Continued => ContinuedMembers(all, p, used, q, rest);
    }

    method Loop() returns (ok: bool)
      requires Valid()
      modifies this, stream
      ensures Stopped()
      ensures !ok ==> !stream.Fine() || Members(old(stream.Rest()), old(State()), maximum) == None
      ensures ok ==>
                stream.Fine() && Members(old(stream.Rest()), old(State()), maximum) == destination && destination.Some?
    {
      ghost var whole := Members(stream.Rest(), State(), maximum);
      while true
        invariant Valid()
        invariant Members(stream.Rest(), State(), maximum) == whole
        decreases |stream.content| - stream.expanded
      {
        var outcome := Step();
        if outcome == Failed { return false; }
        if outcome == Ended { return true; }
      }
    }

    /**
     The extraction: an existing destination is left alone; otherwise it ends up holding the whole
     archive, or not existing.
     */
    method Run(packedSize: nat) returns (ok: bool)
      requires stream.Valid() && stream.expanded == 0 && stream.limit == Limit(maximum)
      requires seen == {} && total == 0 && written == 0
      modifies this, stream
      ensures old(destination).Some? ==> !ok && destination == old(destination)
      ensures old(destination).None? && packedSize > MAX_BUNDLE_BYTES ==> !ok && destination == None
      ensures old(destination).None? && packedSize <= MAX_BUNDLE_BYTES ==>
                destination == Extracted(stream.content, stream.damaged, maximum)
      ensures ok ==> destination.Some?
      ensures !ok ==> destination == old(destination)
      ensures stream.expanded <= Limit(maximum) + MIB && written <= maximum
    {
      if packedSize > MAX_BUNDLE_BYTES || destination.Some? { return false; }
      destination := Some(map[]);
      assert stream.Rest() == stream.content;
      ok := Loop();
      if !ok { destination := None; }
    }
  }
}
