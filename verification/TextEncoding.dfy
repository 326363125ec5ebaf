/** UTF-8 (RFC 3629): text as the bytes in which names and paths are kept. */
module TextEncoding {
  import opened Prelude
  import opened NameOrder

  /** `bytes.decode()` succeeds: well-formed UTF-8. */
  predicate Utf8(s: Bytes) {
    s == [] ||
    if s[0] < 128 then Utf8(s[1..])
    else if 194 <= s[0] < 224 then |s| >= 2 && Tail(s[1]) && Utf8(s[2..])
    else if 224 <= s[0] < 240 then
      && |s| >= 3 && Tail(s[1]) && Tail(s[2])
      && (s[0] == 224 ==> s[1] >= 160) && (s[0] == 237 ==> s[1] < 160)
      && Utf8(s[3..])
    else if 240 <= s[0] < 245 then
      && |s| >= 4 && Tail(s[1]) && Tail(s[2]) && Tail(s[3])
      && (s[0] == 240 ==> s[1] >= 144) && (s[0] == 244 ==> s[1] < 144)
      && Utf8(s[4..])
    else false
  }

  predicate Tail(b: Byte) {
    128 <= b < 192
  }

  /** The bytes of one character: six bits in every byte but the first. */
  function Scalar(c: char): (r: Bytes)
    ensures 1 <= |r| <= 4
  {
    var n := c as int;
    if n < 0x80 then [n]
    else if n < 0x800 then [192 + n / 64, 128 + n % 64]
    else if n < 0x10000 then [224 + n / 64 / 64, 128 + n / 64 % 64, 128 + n % 64]
    else [240 + n / 64 / 64 / 64, 128 + n / 64 / 64 % 64, 128 + n / 64 % 64, 128 + n % 64]
  }

  /** `str.encode()`. */
  function Utf8Of(s: string): Bytes {
    if s == "" then [] else Scalar(s[0]) + Utf8Of(s[1..])
  }

  /** ASCII is its own encoding. */
  lemma {:induction false} AsciiOf(s: string, b: Bytes)
    requires |b| == |s| && forall i :: 0 <= i < |s| ==> s[i] as int == b[i] < 128
    ensures Utf8Of(s) == b
  {
    if s != "" {
      AsciiOf(s[1..], b[1..]);
      assert b == [b[0]] + b[1..];
    }
  }

  lemma {:induction false} AsciiIsUtf8(s: Bytes)
    requires forall c :: c in s ==> c < 128
    ensures Utf8(s)
    decreases |s|
  {
    if s != [] {
      assert s[0] in s && forall c :: c in s[1..] ==> c in s;
      AsciiIsUtf8(s[1..]);
    }
  }

  // --- What decodes ---------------------------------------------------------------------------

  lemma TwoRead(a: Byte, b: Byte, more: Bytes)
    requires 194 <= a < 224 && Tail(b)
    ensures Utf8([a, b] + more) == Utf8(more)
  {
    assert ([a, b] + more)[2..] == more;
  }

  lemma ThreeRead(a: Byte, b: Byte, c: Byte, more: Bytes)
    requires 224 <= a < 240 && Tail(b) && Tail(c) && (a == 224 ==> b >= 160) && (a == 237 ==> b < 160)
    ensures Utf8([a, b, c] + more) == Utf8(more)
  {
    assert ([a, b, c] + more)[3..] == more;
  }

  lemma FourRead(a: Byte, b: Byte, c: Byte, d: Byte, more: Bytes)
    requires 240 <= a < 245 && Tail(b) && Tail(c) && Tail(d) && (a == 240 ==> b >= 144) && (a == 244 ==> b < 144)
    ensures Utf8([a, b, c, d] + more) == Utf8(more)
  {
    assert ([a, b, c, d] + more)[4..] == more;
  }

  lemma ScalarReads(c: char, more: Bytes)
    ensures Utf8(Scalar(c) + more) == Utf8(more)
  {
    var n := c as int;
    if n < 0x80 {
      assert ([n] + more)[1..] == more;
    } else if n < 0x800 {
      TwoRead(192 + n / 64, 128 + n % 64, more);
    } else if n < 0x10000 {
      ThreeRead(224 + n / 64 / 64, 128 + n / 64 % 64, 128 + n % 64, more);
    } else {
      FourRead(240 + n / 64 / 64 / 64, 128 + n / 64 / 64 % 64, 128 + n / 64 % 64, 128 + n % 64, more);
    }
  }

  /** The character that the first bytes are. */
  lemma FirstScalar(s: Bytes) returns (c: char)
    requires s != [] && Utf8(s)
    ensures |Scalar(c)| <= |s| && s == Scalar(c) + s[|Scalar(c)|..] && Utf8(s[|Scalar(c)|..])
  {
    var a: int := s[0];
    if a < 128 {
      c := a as char;
    } else if a < 224 {
      c := TwoMade(a - 192, s[1] as int - 128);
    } else if a < 240 {
      c := ThreeMade(a - 224, s[1] as int - 128, s[2] as int - 128);
    } else {
      c := FourMade(a - 240, s[1] as int - 128, s[2] as int - 128, s[3] as int - 128);
    }
  }

  lemma TwoMade(p: int, q: int) returns (c: char)
    requires 2 <= p < 32 && 0 <= q < 64
    ensures Scalar(c) == [192 + p, 128 + q]
  {
    c := (64 * p + q) as char;
  }

  lemma ThreeMade(p: int, q: int, r: int) returns (c: char)
    requires 0 <= p < 16 && 0 <= q < 64 && 0 <= r < 64 && (p == 0 ==> q >= 32) && (p == 13 ==> q < 32)
    ensures Scalar(c) == [224 + p, 128 + q, 128 + r]
  {
    c := (4096 * p + 64 * q + r) as char;
  }

  lemma FourMade(p: int, q: int, r: int, t: int) returns (c: char)
    requires 0 <= p < 5 && 0 <= q < 64 && 0 <= r < 64 && 0 <= t < 64 && (p == 0 ==> q >= 16) && (p == 4 ==> q < 16)
    ensures Scalar(c) == [240 + p, 128 + q, 128 + r, 128 + t]
  {
    var n := 262144 * p + 4096 * q + 64 * r + t;
    assert n / 64 == 4096 * p + 64 * q + r;
    assert n / 64 / 64 == 64 * p + q;
    c := n as char;
  }

  lemma {:induction false} EncodedDecodes(s: string)
    ensures Utf8(Utf8Of(s))
  {
    if s != "" {
      EncodedDecodes(s[1..]);
      ScalarReads(s[0], Utf8Of(s[1..]));
    }
  }

  lemma {:induction false} DecodedIsEncoded(b: Bytes) returns (s: string)
    requires Utf8(b)
    ensures Utf8Of(s) == b
    decreases |b|
  {
    s := "";
    if b != [] {
      var c := FirstScalar(b);
      var rest := DecodedIsEncoded(b[|Scalar(c)|..]);
      s := [c] + rest;
      assert s[1..] == rest;
    }
  }

  /** Exactly the encodings of texts are decoded. */
  lemma Utf8Iff(b: Bytes)
    ensures Utf8(b) <==> exists s :: Utf8Of(s) == b
  {
    if Utf8(b) { var s := DecodedIsEncoded(b); }
    forall s | Utf8Of(s) == b ensures Utf8(b) { EncodedDecodes(s); }
  }

  lemma {:induction false} Utf8OfAppend(s: string, t: string)
    ensures Utf8Of(s + t) == Utf8Of(s) + Utf8Of(t)
    decreases |s|
  {
    if s == "" {
      assert s + t == t;
    } else {
      assert (s + t)[1..] == s[1..] + t;
      Utf8OfAppend(s[1..], t);
    }
  }

  lemma Utf8Append(a: Bytes, b: Bytes)
    requires Utf8(a) && Utf8(b)
    ensures Utf8(a + b)
  {
    var s := DecodedIsEncoded(a);
    var t := DecodedIsEncoded(b);
    Utf8OfAppend(s, t);
    EncodedDecodes(s + t);
  }

  /** An ASCII character separates texts. */
  lemma {:induction false} Utf8Split(a: Bytes, separator: Byte, b: Bytes)
    requires Utf8(a + [separator] + b) && separator < 128
    ensures Utf8(a) && Utf8(b)
    decreases |a|
  {
    var s := a + [separator] + b;
    if a == [] {
      assert s[1..] == b;
    } else {
      var n := FirstLength(a, separator, b);
      assert s[n..] == a[n..] + [separator] + b;
      Utf8Split(a[n..], separator, b);
      assert a == a[..n] + a[n..];
    }
  }

  // The first character is all in `a`, and is one there.
  lemma FirstLength(a: Bytes, separator: Byte, b: Bytes) returns (n: nat)
    requires a != [] && Utf8(a + [separator] + b) && separator < 128
    ensures 0 < n <= |a| && Utf8((a + [separator] + b)[n..]) && (Utf8(a[n..]) ==> Utf8(a))
  {
    var s := a + [separator] + b;
    n := if a[0] < 128 then 1 else if a[0] < 224 then 2 else if a[0] < 240 then 3 else 4;
    assert s[0] == a[0];
    assert s[|a|] == separator;
  }

  // --- The order --------------------------------------------------------------------------------

  /** Code points compared from the left. */
  predicate Before(s: string, t: string) {
    t != "" && (s == "" || s[0] < t[0] || (s[0] == t[0] && Before(s[1..], t[1..])))
  }

  lemma Smaller(a: Bytes, b: Bytes, k: nat)
    requires k < |a| && k < |b| && a[..k] == b[..k] && a[k] < b[k]
    ensures Less(a, b, -1)
  {
    assert Decides(a, b, -1, k);
    LessIff(a, b, -1);
  }

  lemma Quotients(m: nat, n: nat)
    requires m < n
    ensures m / 64 <= n / 64 && (m / 64 == n / 64 ==> m % 64 < n % 64)
  {
  }

  lemma ScalarSmaller(c: char, d: char) returns (k: nat)
    requires c < d
    ensures k < |Scalar(c)| && k < |Scalar(d)| && Scalar(c)[..k] == Scalar(d)[..k] && Scalar(c)[k] < Scalar(d)[k]
  {
    var m, n := c as int, d as int;
    k := 0;
    if |Scalar(c)| != |Scalar(d)| {
      LongerLeads(c, d);
    } else {
      k := |Scalar(c)| - 1;
      Quotients(m, n);
      if |Scalar(c)| > 1 && m / 64 < n / 64 {
        k := |Scalar(c)| - 2;
        Quotients(m / 64, n / 64);
        if |Scalar(c)| > 2 && m / 64 / 64 < n / 64 / 64 {
          k := |Scalar(c)| - 3;
          Quotients(m / 64 / 64, n / 64 / 64);
          if |Scalar(c)| > 3 && m / 64 / 64 / 64 < n / 64 / 64 / 64 { k := 0; }
        }
      }
    }
  }

  lemma LongerLeads(c: char, d: char)
    requires c < d && |Scalar(c)| != |Scalar(d)|
    ensures Scalar(c)[0] < Scalar(d)[0]
  {
  }

  lemma ScalarOrder(c: char, d: char, x: Bytes, y: Bytes)
    requires c < d
    ensures Less(Scalar(c) + x, Scalar(d) + y, -1)
  {
    var k := ScalarSmaller(c, d);
    var a, b := Scalar(c) + x, Scalar(d) + y;
    assert a[..k] == Scalar(c)[..k] && b[..k] == Scalar(d)[..k];
    Smaller(a, b, k);
  }

  lemma {:induction false} SamePrefixOrder(p: Bytes, x: Bytes, y: Bytes)
    ensures Less(p + x, p + y, -1) == Less(x, y, -1)
    decreases |p|
  {
    if p == [] {
      assert p + x == x && p + y == y;
    } else {
      assert (p + x)[1..] == p[1..] + x && (p + y)[1..] == p[1..] + y;
      SamePrefixOrder(p[1..], x, y);
    }
  }

  /** The bytes of two texts order as their code points do. */
  lemma {:induction false} OrderIsCodePoints(s: string, t: string)
    ensures Less(Utf8Of(s), Utf8Of(t), -1) <==> Before(s, t)
    decreases |s|
  {
    if s != "" && t != "" {
      if s[0] == t[0] {
        SamePrefixOrder(Scalar(s[0]), Utf8Of(s[1..]), Utf8Of(t[1..]));
        OrderIsCodePoints(s[1..], t[1..]);
      } else if s[0] < t[0] {
        ScalarOrder(s[0], t[0], Utf8Of(s[1..]), Utf8Of(t[1..]));
      } else {
        ScalarOrder(t[0], s[0], Utf8Of(t[1..]), Utf8Of(s[1..]));
        Irreflexive(Utf8Of(s), -1);
        if Less(Utf8Of(s), Utf8Of(t), -1) { Transitive(Utf8Of(s), Utf8Of(t), Utf8Of(s), -1); }
      }
    }
  }
}
