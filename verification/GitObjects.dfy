/**
 Git objects as `object_digest` and `tree_entries` (release_evidence.py) see them: the framing that is
 hashed, and the encoding of a tree.
 */
module GitObjects {
  import opened Prelude
  import opened TextEncoding
  import U = Ustar

  // An object's name: its digest in hexadecimal.
  type Id = Bytes

  datatype Kind = CommitKind | TreeKind | BlobKind
  {
    function Text(): (r: Bytes)
      ensures NUL !in r
    {
      match this
      case CommitKind => [99, 111, 109, 109, 105, 116]
      case TreeKind => [116, 114, 101, 101]
      case BlobKind => [98, 108, 111, 98]
    }
  }

  function Decimal(n: nat): (r: Bytes)
    ensures NUL !in r
  {
    if n < 10 then [48 + n] else Decimal(n / 10) + [48 + n % 10]
  }

  function Pow10(n: nat): nat {
    if n == 0 then 1 else 10 * Pow10(n - 1)
  }

  predicate Digits(s: Bytes) {
    forall i :: 0 <= i < |s| ==> 48 <= s[i] < 58
  }

  /** What decimal digits stand for, the most significant one first. */
  function DecimalValue(s: Bytes): nat
    requires Digits(s)
  {
    if s == [] then 0 else (s[0] - 48) * Pow10(|s| - 1) + DecimalValue(s[1..])
  }

  /** `s` is `n` in decimal, without zeros before it. */
  predicate Numeral(s: Bytes, n: nat) {
    s != [] && Digits(s) && (s[0] == 48 ==> |s| == 1) && DecimalValue(s) == n
  }

  lemma {:induction false} DecimalValueAppend(s: Bytes, last: Byte)
    requires Digits(s) && 48 <= last < 58
    ensures Digits(s + [last]) && DecimalValue(s + [last]) == 10 * DecimalValue(s) + (last - 48)
  {
    if s == [] {
      assert s + [last] == [last] && [last][1..] == [];
    } else {
      assert (s + [last])[1..] == s[1..] + [last];
      DecimalValueAppend(s[1..], last);
      TenTimes(s[0] - 48, |s| - 1);
    }
  }

  lemma TenTimes(digit: nat, n: nat)
    ensures digit * Pow10(n + 1) == 10 * (digit * Pow10(n))
  {
  }

  lemma {:induction false} DecimalIsNumeral(n: nat)
    ensures Numeral(Decimal(n), n)
  {
    if n >= 10 {
      DecimalIsNumeral(n / 10);
      DecimalValueAppend(Decimal(n / 10), 48 + n % 10);
      assert Decimal(n / 10) == [48] ==> DecimalValue([48]) == 0;
    } else {
      assert [48 + n][1..] == [];
    }
  }

  /** What Git hashes for an object. */
  function Framed(kind: Kind, data: Bytes): Bytes {
    kind.Text() + [SPACE] + Decimal(|data|) + [NUL] + data
  }

  /** The kind in words, a space, the number of bytes, a NUL, and the bytes. */
  lemma FramedIs(kind: Kind, data: Bytes)
    ensures exists number: Bytes :: Numeral(number, |data|)
                                    && Framed(kind, data) == Utf8Of(Word(kind)) + [SPACE] + number + [NUL] + data
  {
    DecimalIsNumeral(|data|);
    KindSpelled(kind);
  }

  function Word(kind: Kind): string {
    match kind
    case CommitKind => "commit"
    case TreeKind => "tree"
    case BlobKind => "blob"
  }

  lemma KindSpelled(kind: Kind)
    ensures Utf8Of(Word(kind)) == kind.Text()
  {
    AsciiOf(Word(kind), kind.Text());
  }

  function ObjectDigest(hash: Bytes -> Id, kind: Kind, data: Bytes): Id {
    hash(Framed(kind, data))
  }

  ghost predicate Injective(hash: Bytes -> Id) {
    forall x, y :: hash(x) == hash(y) ==> x == y
  }

  lemma FramedInjective(kind: Kind, a: Bytes, b: Bytes)
    requires Framed(kind, a) == Framed(kind, b)
    ensures a == b
  {
    var p, q := kind.Text() + [SPACE] + Decimal(|a|), kind.Text() + [SPACE] + Decimal(|b|);
    U.CutAtNul(p, a);
    U.CutAtNul(q, b);
    assert p == q;
    assert a == Framed(kind, a)[|p| + 1..];
    assert b == Framed(kind, b)[|q| + 1..];
  }

  lemma SameDigestSameData(hash: Bytes -> Id, kind: Kind, a: Bytes, b: Bytes)
    requires Injective(hash) && ObjectDigest(hash, kind, a) == ObjectDigest(hash, kind, b)
    ensures a == b
  {
    FramedInjective(kind, a, b);
  }

  // --- Trees ---------------------------------------------------------------------------------

  /** An entry of a tree; `raw` are the twenty bytes of the child's digest. */
  datatype Entry = Entry(mode: Bytes, name: Bytes, raw: Bytes)

  predicate Nameable(name: Bytes) {
    SLASH !in name && name != [DOT] && name != [DOT, DOT]
  }

  /** What a tree's encoding can carry and the reader admits. */
  predicate Encodable(e: Entry) {
    && |e.raw| == 20
    && SPACE !in e.mode && NUL !in e.mode && NUL !in e.name
    && Utf8(e.mode + [SPACE] + e.name)
    && Nameable(e.name)
  }

  function Encoded(e: Entry): Bytes {
    e.mode + [SPACE] + e.name + [NUL] + e.raw
  }

  function EncodedTree(entries: seq<Entry>): Bytes {
    if entries == [] then [] else Encoded(entries[0]) + EncodedTree(entries[1..])
  }

  /** The text before the first space, and whether there is one. */
  function UpToSpace(s: Bytes): (r: Bytes)
    ensures |r| <= |s| && r == s[..|r|] && SPACE !in r
    ensures |r| < |s| ==> s[|r|] == SPACE
  {
    if s == [] || s[0] == SPACE then [] else [s[0]] + UpToSpace(s[1..])
  }

  lemma {:induction false} UpToSpaceStops(s: Bytes, rest: Bytes)
    requires SPACE !in s
    ensures UpToSpace(s + [SPACE] + rest) == s
    decreases |s|
  {
    var all := s + [SPACE] + rest;
    if s != [] {
      assert all[1..] == s[1..] + [SPACE] + rest;
      UpToSpaceStops(s[1..], rest);
    }
  }

  /** One turn of the reader's loop; `None` for its exceptions. */
  function ParseEntry(data: Bytes): (r: Option<(Entry, Bytes)>)
    ensures r.Some? ==> Encodable(r.value.0) && Encoded(r.value.0) + r.value.1 == data && |r.value.1| < |data|
  {
    var header := U.Cut(data);
    if |header| == |data| || |data| - |header| - 1 < 20 || !Utf8(header) then None
    else
      var rest := data[|header| + 1..];
      var mode := UpToSpace(header);
      if |mode| == |header| then None
      else
        var name := header[|mode| + 1..];
        if !Nameable(name) then None
        else
          assert header == mode + [SPACE] + name;
          assert data == header + [NUL] + rest[..20] + rest[20..];
          Some((Entry(mode, name, rest[..20]), rest[20..]))
  }

  lemma ParseEncoded(e: Entry, more: Bytes)
    requires Encodable(e)
    ensures ParseEntry(Encoded(e) + more) == Some((e, more))
  {
    var header := e.mode + [SPACE] + e.name;
    var data := Encoded(e) + more;
    assert data == header + [NUL] + (e.raw + more);
    U.CutAtNul(header, e.raw + more);
    UpToSpaceStops(e.mode, e.name);
    assert header[|e.mode| + 1..] == e.name;
    assert data[|header| + 1..] == e.raw + more;
  }

  function HexDigit(n: nat): Byte
    requires n < 16
  {
    if n < 10 then 48 + n else 87 + n
  }

  function Hex(raw: Bytes): (r: Id)
    ensures |r| == 2 * |raw|
  {
    if raw == [] then [] else [HexDigit(raw[0] / 16), HexDigit(raw[0] % 16)] + Hex(raw[1..])
  }

  /** A hexadecimal digit, in lower case. */
  predicate IsHexDigit(c: Byte) {
    48 <= c < 58 || 97 <= c < 103
  }

  /** '0' to '9' stand for 0 to 9 and 'a' to 'f' for 10 to 15. */
  function HexValue(c: Byte): nat
    requires IsHexDigit(c)
  {
    if c < 58 then c - 48 else c - 97 + 10
  }

  /** `id` are the bytes `raw` in hexadecimal: two digits for a byte, the more significant one first. */
  predicate Spells(id: Id, raw: Bytes) {
    && |id| == 2 * |raw|
    && (forall i :: 0 <= i < |id| ==> IsHexDigit(id[i]))
    && (forall i :: 0 <= i < |raw| ==> 16 * HexValue(id[2 * i]) + HexValue(id[2 * i + 1]) == raw[i])
  }

  lemma {:induction false} SpellsRest(id: Id, raw: Bytes)
    requires raw != [] && |id| == 2 * |raw|
    ensures Spells(id, raw) <==> Spells(id[..2], raw[..1]) && Spells(id[2..], raw[1..])
  {
    if Spells(id[..2], raw[..1]) && Spells(id[2..], raw[1..]) {
      forall i | 0 <= i < |id| ensures IsHexDigit(id[i]) {
        assert id[i] == if i < 2 then id[..2][i] else id[2..][i - 2];
      }
      forall i | 0 <= i < |raw| ensures 16 * HexValue(id[2 * i]) + HexValue(id[2 * i + 1]) == raw[i] {
        if i == 0 {
          assert raw[..1][0] == raw[0] && id[..2][2 * 0] == id[0];
        } else {
          assert raw[1..][i - 1] == raw[i] && id[2..][2 * (i - 1)] == id[2 * i];
        }
      }
    }
    if Spells(id, raw) {
      assert forall i :: 0 <= i < |raw| - 1 ==> raw[1..][i] == raw[i + 1] && id[2..][2 * i] == id[2 * (i + 1)];
    }
  }

  /** An object's name is spelled in one way. */
  lemma {:induction false} SpellsIffHex(id: Id, raw: Bytes)
    ensures Spells(id, raw) <==> id == Hex(raw)
    decreases |raw|
  {
    if raw != [] && |id| == 2 * |raw| {
      SpellsRest(id, raw);
      SpellsIffHex(id[2..], raw[1..]);
      OneByte(id[..2], raw[0]);
      assert raw[..1] == [raw[0]] && id == id[..2] + id[2..];
      assert Hex(raw)[..2] == [HexDigit(raw[0] / 16), HexDigit(raw[0] % 16)] && Hex(raw)[2..] == Hex(raw[1..]);
    }
  }

  lemma SpellsUnique(a: Id, b: Id, raw: Bytes)
    requires Spells(a, raw) && Spells(b, raw)
    ensures a == b
  {
    SpellsIffHex(a, raw);
    SpellsIffHex(b, raw);
  }

  lemma OneByte(id: Id, b: Byte)
    requires |id| == 2
    ensures Spells(id, [b]) <==> id == [HexDigit(b / 16), HexDigit(b % 16)]
  {
    if Spells(id, [b]) {
      assert 16 * HexValue(id[2 * 0]) + HexValue(id[2 * 0 + 1]) == b;
    }
  }

  /** The dictionary of a tree: from a name to its mode and the child's name. */
  type Entries = map<Bytes, (Bytes, Id)>

  ghost predicate Describes(entries: Entries, listed: seq<Entry>) {
    && (forall i :: 0 <= i < |listed| ==> Encodable(listed[i]))
    && (forall i, j :: 0 <= i < j < |listed| ==> listed[i].name != listed[j].name)
    && (forall i :: 0 <= i < |listed| ==> listed[i].name in entries
                                          && entries[listed[i].name].0 == listed[i].mode
                                          && Spells(entries[listed[i].name].1, listed[i].raw))
    && (forall n :: n in entries ==> exists i :: 0 <= i < |listed| && listed[i].name == n)
  }

  /** `data` is the encoding of a tree with the entries `entries`. */
  ghost predicate IsTree(data: Bytes, entries: Entries) {
    exists listed :: Describes(entries, listed) && EncodedTree(listed) == data
  }

  lemma {:induction false} EncodedAppend(listed: seq<Entry>, e: Entry, more: Bytes)
    ensures EncodedTree(listed) + (Encoded(e) + more) == EncodedTree(listed + [e]) + more
    decreases |listed|
  {
    if listed == [] {
      assert [e][1..] == [];
      assert listed + [e] == [e];
    } else {
      assert (listed + [e])[1..] == listed[1..] + [e];
      EncodedAppend(listed[1..], e, more);
      assert EncodedTree(listed) + (Encoded(e) + more) == Encoded(listed[0])
               + (EncodedTree(listed[1..]) + (Encoded(e) + more));
    }
  }

  lemma DescribesAppend(entries: Entries, listed: seq<Entry>, e: Entry)
    requires Describes(entries, listed) && Encodable(e) && e.name !in entries
    ensures Describes(entries[e.name := (e.mode, Hex(e.raw))], listed + [e])
  {
    var more, all := entries[e.name := (e.mode, Hex(e.raw))], listed + [e];
    SpellsIffHex(Hex(e.raw), e.raw);
    forall n | n in more ensures exists i :: 0 <= i < |all| && all[i].name == n {
      if n == e.name {
        assert all[|listed|].name == n;
      } else {
        var i :| 0 <= i < |listed| && listed[i].name == n;
        assert all[i].name == n;
      }
    }
  }

  /** Any list that encodes to the same bytes begins as the one read so far. */
  lemma {:induction false} SamePrefix(listed: seq<Entry>, rest: Bytes, all: seq<Entry>)
    requires forall i :: 0 <= i < |listed| ==> Encodable(listed[i])
    requires forall i :: 0 <= i < |all| ==> Encodable(all[i])
    requires EncodedTree(listed) + rest == EncodedTree(all)
    ensures |listed| <= |all| && listed == all[..|listed|] && rest == EncodedTree(all[|listed|..])
    decreases |listed|
  {
    if listed == [] {
      assert EncodedTree(listed) + rest == rest && all[0..] == all;
    } else {
      var e := listed[0];
      var more := EncodedTree(listed[1..]) + rest;
      assert EncodedTree(listed) + rest == Encoded(e) + more;
      ParseEncoded(e, more);
      assert all != [];
      ParseEncoded(all[0], EncodedTree(all[1..]));
      SamePrefix(listed[1..], rest, all[1..]);
      assert listed == [e] + listed[1..] && all[..|listed|] == [all[0]] + all[1..][..|listed| - 1];
      assert all[|listed|..] == all[1..][|listed| - 1..];
    }
  }

  lemma SameChild(a: Entries, b: Entries, listed: seq<Entry>, i: nat)
    requires i < |listed| && Describes(a, listed) && Describes(b, listed)
    ensures listed[i].name in a && listed[i].name in b && a[listed[i].name] == b[listed[i].name]
  {
    var n := listed[i].name;
    SpellsUnique(a[n].1, b[n].1, listed[i].raw);
  }

  lemma SameName(a: Entries, b: Entries, listed: seq<Entry>, n: Bytes)
    requires Describes(a, listed) && Describes(b, listed) && n in a
    ensures n in b && a[n] == b[n]
  {
    var i :| 0 <= i < |listed| && listed[i].name == n;
    SameChild(a, b, listed, i);
  }

  lemma DescribesUnique(a: Entries, b: Entries, listed: seq<Entry>)
    requires Describes(a, listed) && Describes(b, listed)
    ensures a == b
  {
    forall n | n in a ensures n in b && b[n] == a[n] { SameName(a, b, listed, n); }
    forall n | n in b ensures n in a { SameName(b, a, listed, n); }
  }

  lemma EncodingUnique(s: seq<Entry>, t: seq<Entry>)
    requires forall i :: 0 <= i < |s| ==> Encodable(s[i])
    requires forall i :: 0 <= i < |t| ==> Encodable(t[i])
    requires EncodedTree(s) == EncodedTree(t)
    ensures s == t
  {
    assert EncodedTree(s) + [] == EncodedTree(t);
    SamePrefix(s, [], t);
    assert EncodedTree(t) + [] == EncodedTree(s);
    SamePrefix(t, [], s);
  }

  /** A tree has one dictionary. */
  lemma TreeUnique(data: Bytes, a: Entries, b: Entries)
    requires IsTree(data, a) && IsTree(data, b)
    ensures a == b
  {
    var s: seq<Entry> :| Describes(a, s) && EncodedTree(s) == data;
    var t: seq<Entry> :| Describes(b, t) && EncodedTree(t) == data;
    EncodingUnique(s, t);
    DescribesUnique(a, b, s);
  }

  lemma NextEntry(listed: seq<Entry>, rest: Bytes, so: Entries, entries: Entries, all: seq<Entry>)
    requires Describes(so, listed) && Describes(entries, all) && EncodedTree(listed) + rest == EncodedTree(all)
    requires rest != []
    ensures ParseEntry(rest).Some? && ParseEntry(rest).value.0.name !in so
  {
    SamePrefix(listed, rest, all);
    var k := |listed|;
    assert all[k..] != [] && all[k..][0] == all[k];
    ParseEncoded(all[k], EncodedTree(all[k..][1..]));
    forall i | 0 <= i < k ensures listed[i].name != all[k].name { assert all[..k][i] == all[i]; }
  }

  /** Where the reader gives up, no tree is encoded. */
  lemma NotATree(listed: seq<Entry>, rest: Bytes, so: Entries)
    requires Describes(so, listed) && rest != []
    requires ParseEntry(rest) == None || ParseEntry(rest).value.0.name in so
    ensures forall entries :: !IsTree(EncodedTree(listed) + rest, entries)
  {
    forall entries ensures !IsTree(EncodedTree(listed) + rest, entries) {
      if IsTree(EncodedTree(listed) + rest, entries) {
        var all: seq<Entry> :| Describes(entries, all) && EncodedTree(all) == EncodedTree(listed) + rest;
        NextEntry(listed, rest, so, entries, all);
      }
    }
  }

  /** What the reader's loop makes of `rest` when it has `so` already. */
  function ParseFrom(rest: Bytes, so: Entries): Option<Entries>
    decreases |rest|
  {
    if rest == [] then Some(so)
    else
      match ParseEntry(rest)
      case None => None
      case Some((e, more)) => if e.name in so then None else ParseFrom(more, so[e.name := (e.mode, Hex(e.raw))])
  }

  function ParseTree(data: Bytes): Option<Entries> {
    ParseFrom(data, map[])
  }

  ghost predicate Right(r: Option<Entries>, data: Bytes) {
    match r
    case Some(entries) => IsTree(data, entries)
    case None => forall entries :: !IsTree(data, entries)
  }

  lemma EndIsRight(listed: seq<Entry>, so: Entries)
    requires Describes(so, listed)
    ensures Right(Some(so), EncodedTree(listed) + [])
  {
    assert EncodedTree(listed) + [] == EncodedTree(listed);
  }

  lemma {:induction false} ParseFromIsTree(listed: seq<Entry>, rest: Bytes, so: Entries)
    requires Describes(so, listed)
    ensures Right(ParseFrom(rest, so), EncodedTree(listed) + rest)
    decreases |rest|
  {
    if rest == [] {
      EndIsRight(listed, so);
    } else if ParseEntry(rest) == None || ParseEntry(rest).value.0.name in so {
      NotATree(listed, rest, so);
    } else {
      var (e, more) := ParseEntry(rest).value;
      OneMore(listed, e, more, so);
      ParseFromIsTree(listed + [e], more, so[e.name := (e.mode, Hex(e.raw))]);
    }
  }

  lemma OneMore(listed: seq<Entry>, e: Entry, more: Bytes, so: Entries)
    requires Describes(so, listed) && Encodable(e) && e.name !in so
    ensures Describes(so[e.name := (e.mode, Hex(e.raw))], listed + [e])
    ensures EncodedTree(listed) + (Encoded(e) + more) == EncodedTree(listed + [e]) + more
  {
    EncodedAppend(listed, e, more);
    DescribesAppend(so, listed, e);
  }

  /** The reader takes exactly the encodings of trees, and gives their entries. */
  lemma ParseTreeIsTree(data: Bytes, entries: Entries)
    ensures ParseTree(data) == Some(entries) <==> IsTree(data, entries)
  {
    assert EncodedTree([]) + data == data;
    ParseFromIsTree([], data, map[]);
    if IsTree(data, entries) { TreeUnique(data, entries, ParseTree(data).value); }
  }

  /** `tree_entries`. */
  method TreeEntries(data: Bytes) returns (r: Option<Entries>)
    ensures r == ParseTree(data)
    ensures forall entries :: r == Some(entries) <==> IsTree(data, entries)
  {
    forall entries ensures ParseTree(data) == Some(entries)
    <==> IsTree(data, entries) { ParseTreeIsTree(data, entries); }
    var entries: Entries := map[];
    var rest := data;
    while rest != []
      invariant ParseFrom(rest, entries) == ParseTree(data)
      decreases |rest|
    {
      var parsed := ParseEntry(rest);
      if parsed.None? || parsed.value.0.name in entries { return None; }
      var e := parsed.value.0;
      entries := entries[e.name := (e.mode, Hex(e.raw))];
      rest := parsed.value.1;
    }
    return Some(entries);
  }
}
