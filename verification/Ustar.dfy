/**
 One USTAR header block (POSIX.1-2017, pax utility, "ustar Interchange Format") as Python's tarfile
 writes and reads it.
 */
module Ustar {
  import opened Prelude
  import opened TextEncoding

  const ZERO: Byte := 48

  const REGULAR: Byte := 48   // '0'
  const DIRECTORY: Byte := 53 // '5'

  const BLOCK := 512
  const NAME_LENGTH := 100
  const PREFIX_LENGTH := 155

  function Repeat(b: Byte, n: nat): (r: Bytes)
    ensures |r| == n && forall i :: 0 <= i < n ==> r[i] == b
  {
    seq(n, _ => b)
  }

  // --- Numbers ----------------------------------------------------------------------------

  function Pow8(n: nat): nat {
    if n == 0 then 1 else 8 * Pow8(n - 1)
  }

  /** `digits` octal digits, most significant first. */
  function Octal(n: nat, digits: nat): (r: Bytes)
    ensures |r| == digits && forall i :: 0 <= i < digits ==> ZERO <= r[i] < ZERO + 8
    decreases digits
  {
    if digits == 0 then [] else Octal(n / 8, digits - 1) + [ZERO + n % 8]
  }

  predicate OctalDigit(b: Byte) {
    ZERO <= b < ZERO + 8
  }

  predicate OctalDigits(s: Bytes) {
    forall i :: 0 <= i < |s| ==> OctalDigit(s[i])
  }

  function OctalValue(s: Bytes): nat
    requires OctalDigits(s)
  {
    if s == [] then 0 else 8 * OctalValue(s[..|s|-1]) + (s[|s|-1] - ZERO)
  }

  lemma {:induction false} OctalRoundTrip(n: nat, digits: nat)
    requires n < Pow8(digits)
    ensures OctalValue(Octal(n, digits)) == n
    decreases digits
  {
    if digits > 0 {
      OctalRoundTrip(n / 8, digits - 1);
      assert Octal(n, digits)[..digits-1] == Octal(n / 8, digits - 1);
    }
  }

  /** The most significant digit comes first. */
  lemma {:induction false} OctalLeads(s: Bytes)
    requires OctalDigits(s) && s != []
    ensures OctalValue(s) == (s[0] - ZERO) * Pow8(|s| - 1) + OctalValue(s[1..])
    decreases |s|
  {
    if |s| > 1 {
      var front, last := s[..|s|-1], s[|s|-1];
      OctalLeads(front);
      assert s[1..][..|s|-2] == front[1..] && s[1..][|s|-2] == last;
      assert 8 * ((s[0] - ZERO) * Pow8(|s| - 2)) == (s[0] - ZERO) * Pow8(|s| - 1);
    }
  }

  /** `nts`: a field up to its first NUL. */
  function Cut(field: Bytes): (r: Bytes)
    ensures |r| <= |field| && r == field[..|r|] && NUL !in r
    ensures |r| < |field| ==> field[|r|] == NUL
  {
    if field == [] || field[0] == NUL then [] else [field[0]] + Cut(field[1..])
  }

  lemma {:induction false} CutPadded(s: Bytes, n: nat)
    requires NUL !in s
    ensures Cut(s + Repeat(NUL, n)) == s
    decreases |s|
  {
    var field := s + Repeat(NUL, n);
    if s != [] {
      assert field[1..] == s[1..] + Repeat(NUL, n);
      CutPadded(s[1..], n);
    }
  }

  /** White space of ASCII. */
  predicate Blank(b: Byte) {
    9 <= b <= 13 || 28 <= b <= 32
  }

  predicate Blanks(s: Bytes) {
    forall i :: 0 <= i < |s| ==> Blank(s[i])
  }

  /** `str.strip`. */
  function Strip(s: Bytes): (r: Bytes)
    ensures |r| <= |s|
    ensures r != [] ==> !Blank(r[0]) && !Blank(r[|r|-1])
  {
    if s == [] then []
    else if Blank(s[0]) then Strip(s[1..])
    else if Blank(s[|s|-1]) then Strip(s[..|s|-1])
    else s
  }

  lemma {:induction false} StripBlanks(a: Bytes, text: Bytes, b: Bytes)
    requires Blanks(a) && Blanks(b)
    requires text == [] || (!Blank(text[0]) && !Blank(text[|text|-1]))
    ensures Strip(a + text + b) == text
    decreases |a| + |b|
  {
    var s := a + text + b;
    if a != [] {
      assert s[1..] == a[1..] + text + b;
      StripBlanks(a[1..], text, b);
    } else if b != [] {
      assert s[..|s|-1] == a + text + b[..|b|-1];
      if text == [] {
        assert s[1..] == a + text + b[1..];
        StripBlanks(a, text, b[1..]);
      } else {
        assert s[0] == text[0] && s[|s|-1] == b[|b|-1];
        StripBlanks(a, text, b[..|b|-1]);
      }
    } else {
      assert s == text;
    }
  }

  function BigEndian(s: Bytes): nat {
    if s == [] then 0 else 256 * BigEndian(s[..|s|-1]) + s[|s|-1]
  }

  function Pow256(n: nat): nat {
    if n == 0 then 1 else 256 * Pow256(n - 1)
  }

  /** The most significant byte comes first. */
  lemma {:induction false} BigEndianLeads(s: Bytes)
    requires s != []
    ensures BigEndian(s) == s[0] * Pow256(|s| - 1) + BigEndian(s[1..])
    decreases |s|
  {
    if |s| > 1 {
      var front, last := s[..|s|-1], s[|s|-1];
      BigEndianLeads(front);
      assert s[1..][..|s|-2] == front[1..] && s[1..][|s|-2] == last;
      assert 256 * (s[0] * Pow256(|s| - 2)) == s[0] * Pow256(|s| - 1);
    }
  }

  // --- `int(text, 8)`: a sign, a prefix "0o", and digits that may have one underscore between them

  const PLUS: Byte := 43
  const MINUS: Byte := 45
  const UNDERSCORE: Byte := 95

  /** The digits without the underscores. */
  function Ungrouped(s: Bytes): (r: Option<Bytes>)
    ensures r.Some? ==> r.value != [] && OctalDigits(r.value)
  {
    if s == [] || !OctalDigit(s[0]) then None
    else if |s| == 1 then Some(s)
    else
      match Ungrouped(if s[1] == UNDERSCORE then s[2..] else s[1..])
      case None => None
      case Some(rest) => Some([s[0]] + rest)
  }

  function Unprefixed(s: Bytes): Bytes {
    if |s| >= 2 && s[0] == ZERO && s[1] in {79, 111} then if |s| > 2 && s[2] == UNDERSCORE then s[3..] else s[2..]
    else s
  }

  function Integer(s: Bytes): Option<int> {
    var signed := s != [] && s[0] in {PLUS, MINUS};
    match Ungrouped(Unprefixed(if signed then s[1..] else s))
    case None => None
    case Some(digits) =>
      var value: int := OctalValue(digits);
      Some(if signed && s[0] == MINUS then -value else value)
  }

  lemma {:induction false} UngroupedDigits(s: Bytes)
    requires OctalDigits(s) && s != []
    ensures Ungrouped(s) == Some(s)
    decreases |s|
  {
    if |s| > 1 {
      UngroupedDigits(s[1..]);
      assert s == [s[0]] + s[1..];
    }
  }

  lemma IntegerDigits(s: Bytes)
    requires OctalDigits(s) && s != []
    ensures Integer(s) == Some(OctalValue(s))
  {
    UngroupedDigits(s);
  }

  /** `nti`: base 256 when the first byte says so, otherwise a number between blanks, or nothing for zero. */
  function Number(field: Bytes): Option<int>
    requires field != []
  {
    if field[0] == 128 then Some(BigEndian(field[1..]))
    else if field[0] == 255 then Some(BigEndian(field[1..]) - Pow256(|field| - 1))
    else
      var text := Strip(Cut(field));
      if text == [] then Some(0) else Integer(text)
  }

  /** Octal digits between blanks, closed by a NUL. */
  lemma NumberBetweenBlanks(a: Bytes, digits: Bytes, b: Bytes, fill: Bytes)
    requires Blanks(a) && Blanks(b) && OctalDigits(digits)
    ensures Number(a + digits + b + [NUL] + fill) == Some(OctalValue(digits))
  {
    var text := a + digits + b;
    CutAtNul(text, fill);
    StripBlanks(a, digits, b);
    if digits != [] { IntegerDigits(digits); }
    var field := text + [NUL] + fill;
    assert text != [] ==> field[0] == text[0] && (Blank(text[0]) || ZERO <= text[0] < ZERO + 8);
  }

  /** A number field: octal digits closed by a NUL, and possibly more filling. */
  lemma NumberRoundTrip(n: nat, digits: nat, fill: Bytes)
    requires 0 < digits && n < Pow8(digits)
    ensures Number(Octal(n, digits) + [NUL] + fill) == Some(n)
  {
    var text := Octal(n, digits);
    NumberBetweenBlanks([], text, [], fill);
    assert [] + text + [] + [NUL] + fill == text + [NUL] + fill;
    OctalRoundTrip(n, digits);
  }

  lemma {:induction false} CutAtNul(s: Bytes, fill: Bytes)
    requires NUL !in s
    ensures Cut(s + [NUL] + fill) == s
    decreases |s|
  {
    var field := s + [NUL] + fill;
    if s != [] {
      assert field[1..] == s[1..] + [NUL] + fill;
      CutAtNul(s[1..], fill);
    }
  }

  // --- Names ------------------------------------------------------------------------------

  /** `_posix_split_name`: the first slash that leaves both parts within their fields. */
  function SplitAt(name: Bytes, k: nat): (r: Option<nat>)
    requires k <= |name|
    ensures r.Some? ==> k <= r.value < |name| && Splits(name, r.value)
    ensures r.None? ==> forall j :: k <= j < |name| ==> !Splits(name, j)
    decreases |name| - k
  {
    if k == |name| then None
    else if Splits(name, k) then Some(k)
    else SplitAt(name, k + 1)
  }

  predicate Splits(name: Bytes, k: nat) {
    k < |name| && name[k] == SLASH && k <= PREFIX_LENGTH && |name| - k - 1 <= NAME_LENGTH
  }

  /** A name that one header can carry. */
  predicate Encodable(name: Bytes) {
    || |name| <= NAME_LENGTH
    || exists k :: 0 <= k < |name| && name[k] == SLASH && k <= PREFIX_LENGTH && |name| <= k + 1 + NAME_LENGTH
  }

  function Fields(name: Bytes): (r: Option<(Bytes, Bytes)>)
    ensures r.Some? <==> Encodable(name)
    ensures r.Some? ==> |r.value.0| <= PREFIX_LENGTH && |r.value.1| <= NAME_LENGTH
    ensures r.Some? ==>
              name == if r.value.0 == [] && |name| <= NAME_LENGTH then r.value.1 else r.value.0 + [SLASH] + r.value.1
  {
    if |name| <= NAME_LENGTH then Some(([], name))
    else
      match SplitAt(name, 0)
      case Some(k) => Some((name[..k], name[k+1..]))
      case None =>
        assert forall k :: 0 <= k < |name| && name[k] == SLASH && !Splits(name, k) ==>
            k > PREFIX_LENGTH || |name| > k + 1 + NAME_LENGTH;
        None
  }

  // --- Headers ----------------------------------------------------------------------------

  function Sum(s: Bytes): nat {
    if s == [] then 0 else Sum(s[..|s|-1]) + s[|s|-1]
  }

  function SignedSum(s: Bytes): int {
    if s == [] then 0
    else
      var b: int := s[|s|-1];
      SignedSum(s[..|s|-1]) + if b < 128 then b else b - 256
  }

  lemma {:induction false} SumAppend(a: Bytes, b: Bytes)
    ensures Sum(a + b) == Sum(a) + Sum(b) && SignedSum(a + b) == SignedSum(a) + SignedSum(b)
    decreases |b|
  {
    if b == [] {
      assert a + b == a;
    } else {
      assert (a + b)[..|a + b| - 1] == a + b[..|b|-1];
      SumAppend(a, b[..|b|-1]);
    }
  }

  lemma {:induction false} SumOfBlanks(n: nat)
    ensures Sum(Repeat(SPACE, n)) == SignedSum(Repeat(SPACE, n)) == 32 * n
    decreases n
  {
    if n > 0 {
      assert Repeat(SPACE, n)[..n-1] == Repeat(SPACE, n - 1);
      SumOfBlanks(n - 1);
    }
  }

  lemma {:induction false} SumBound(s: Bytes)
    ensures Sum(s) <= 255 * |s|
    decreases |s|
  {
    if s != [] { SumBound(s[..|s|-1]); }
  }

  // mode 0644, owner 0 and group 0 as "0000644\0" "0000000\0" "0000000\0"
  function Owner(): (r: Bytes) ensures |r| == 24 {
    Octal(420, 7) + [NUL] + Octal(0, 7) + [NUL] + Octal(0, 7) + [NUL]
  }

  // modification time 0
  function Mtime(): (r: Bytes) ensures |r| == 12 {
    Octal(0, 11) + [NUL]
  }

  // link name, magic "ustar\0" and version "00", user, group and device fields
  function Middle(): (r: Bytes) ensures |r| == 188 {
    Repeat(NUL, 100) + [117, 115, 116, 97, 114, 0, 48, 48] + Repeat(NUL, 80)
  }

  function Pad(s: Bytes, n: nat): (r: Bytes)
    requires |s| <= n
    ensures |r| == n
  {
    s + Repeat(NUL, n - |s|)
  }

  function Front(name: Bytes, size: nat): (r: Bytes)
    requires |name| <= NAME_LENGTH
    ensures |r| == 148
  {
    Pad(name, NAME_LENGTH) + Owner() + (Octal(size, 11) + [NUL]) + Mtime()
  }

  function Back(prefix: Bytes, kind: Byte): (r: Bytes)
    requires |prefix| <= PREFIX_LENGTH
    ensures |r| == 356
  {
    [kind] + Middle() + Pad(prefix, PREFIX_LENGTH) + Repeat(NUL, 12)
  }

  function Checksum(front: Bytes, back: Bytes): nat {
    256 + Sum(front) + Sum(back)
  }

  /** A regular member's header. */
  function Header(prefix: Bytes, name: Bytes, size: nat): (r: Bytes)
    requires |prefix| <= PREFIX_LENGTH && |name| <= NAME_LENGTH
    ensures |r| == BLOCK
  {
    HeaderOf(prefix, name, size, REGULAR)
  }

  function HeaderOf(prefix: Bytes, name: Bytes, size: nat, kind: Byte): (r: Bytes)
    requires |prefix| <= PREFIX_LENGTH && |name| <= NAME_LENGTH
    ensures |r| == BLOCK
  {
    var front, back := Front(name, size), Back(prefix, kind);
    front + (Octal(Checksum(front, back), 6) + [NUL, SPACE]) + back
  }

  datatype Member = Member(name: Bytes, size: int, kind: Byte)
  {
    predicate IsDirectory() {
      kind == DIRECTORY
    }
  }

  function TrimSlashes(name: Bytes): (r: Bytes)
    ensures |r| <= |name| && r == name[..|r|]
  {
    if name != [] && name[|name|-1] == SLASH then TrimSlashes(name[..|name|-1]) else name
  }

  predicate GnuType(kind: Byte) {
    kind in {76, 75, 83} // 'L', 'K', 'S'
  }

  /** Mode, owner, group, time and device are numbers. */
  predicate OtherNumbers(header: Bytes)
    requires |header| == BLOCK
  {
    && Number(header[100..108]).Some? && Number(header[108..116]).Some? && Number(header[116..124]).Some?
    && Number(header[136..148]).Some? && Number(header[329..337]).Some? && Number(header[337..345]).Some?
  }

  /** Name, link, owner's and group's name and prefix are texts. */
  predicate Texts(header: Bytes)
    requires |header| == BLOCK
  {
    && Utf8(Cut(header[..100])) && Utf8(Cut(header[157..257])) && Utf8(Cut(header[265..297]))
    && Utf8(Cut(header[297..329])) && Utf8(Cut(header[345..500]))
  }

  /** The checksum is the sum of the other bytes and eight blanks; some writers add signed bytes. */
  predicate Checked(header: Bytes)
    requires |header| == BLOCK
  {
    var checksum := Number(header[148..156]);
    var front, back := header[..148], header[156..];
    checksum.Some? && checksum.value in {Checksum(front, back), 256 + SignedSum(front) + SignedSum(back)}
  }

  /** `TarInfo.frombuf` of one block that is not all zeros. */
  function Decode(header: Bytes): Option<Member>
    requires |header| == BLOCK
  {
    var size := Number(header[124..136]);
    if size.None? || !OtherNumbers(header) || !Texts(header) || !Checked(header) then None
    else
      var raw := Cut(header[..100]);
      var flag := header[156];
      var kind := if flag == NUL && raw != [] && raw[|raw|-1] == SLASH then DIRECTORY else flag;
      var name := if kind == DIRECTORY then TrimSlashes(raw) else raw;
      var prefix := Cut(header[345..500]);
      Some(Member(if prefix != [] && !GnuType(kind) then prefix + [SLASH] + name else name, size.value, kind))
  }

  // --- The checksum -------------------------------------------------------------------------

  /** The block with blanks for the checksum. */
  function Blanked(header: Bytes): (r: Bytes)
    requires |header| == BLOCK
    ensures |r| == BLOCK
  {
    header[..148] + Repeat(SPACE, 8) + header[156..]
  }

  lemma ChecksumIsSum(header: Bytes)
    requires |header| == BLOCK
    ensures Checksum(header[..148], header[156..]) == Sum(Blanked(header))
    ensures 256 + SignedSum(header[..148]) + SignedSum(header[156..]) == SignedSum(Blanked(header))
  {
    SumAppend(header[..148] + Repeat(SPACE, 8), header[156..]);
    SumAppend(header[..148], Repeat(SPACE, 8));
    SumOfBlanks(8);
  }

  /**
   A block is read exactly if its fields are numbers and texts, and its checksum is the sum of its bytes,
   signed or not.
   */
  lemma DecodesIff(header: Bytes)
    requires |header| == BLOCK
    ensures Decode(header).Some?
            <==> Number(header[124..136]).Some? && OtherNumbers(header) && Texts(header)
                 && Number(header[148..156]) in [Some(Sum(Blanked(header))), Some(SignedSum(Blanked(header)))]
  {
    CheckedIff(header);
  }

  lemma CheckedIff(header: Bytes)
    requires |header| == BLOCK
    ensures Checked(header)
            <==> Number(header[148..156]) in [Some(Sum(Blanked(header))), Some(SignedSum(Blanked(header)))]
  {
    ChecksumIsSum(header);
  }

  // --- What a header says -------------------------------------------------------------------

  lemma HeaderSlices(prefix: Bytes, name: Bytes, size: nat, kind: Byte)
    requires |prefix| <= PREFIX_LENGTH && |name| <= NAME_LENGTH
    ensures var h := HeaderOf(prefix, name, size, kind);
      && h[..148] == Front(name, size) && h[156..] == Back(prefix, kind)
      && h[148..156] == Octal(Checksum(Front(name, size), Back(prefix, kind)), 6) + [NUL, SPACE]
  {
  }

  lemma FrontSlices(name: Bytes, size: nat)
    requires |name| <= NAME_LENGTH
    ensures var f := Front(name, size);
      && f[..100] == Pad(name, NAME_LENGTH) && f[100..124] == Owner()
      && f[124..136] == Octal(size, 11) + [NUL] && f[136..148] == Mtime()
  {
  }

  lemma BackSlices(prefix: Bytes, kind: Byte)
    requires |prefix| <= PREFIX_LENGTH
    ensures var b := Back(prefix, kind);
      && b[0] == kind && b[1..189] == Middle() && b[189..344] == Pad(prefix, PREFIX_LENGTH)
      && b[344..] == Repeat(NUL, 12)
  {
  }

  lemma Eight(n: nat)
    requires n == 6
    ensures Pow8(n) == 262144
  {
    assert Pow8(2) == 64;
    assert Pow8(4) == 4096;
  }

  lemma ChecksumRoundTrip(prefix: Bytes, name: Bytes, size: nat, kind: Byte)
    requires |prefix| <= PREFIX_LENGTH && |name| <= NAME_LENGTH
    ensures var h := HeaderOf(prefix, name, size, kind); Number(h[148..156]) == Some(Sum(Blanked(h)))
  {
    var front, back := Front(name, size), Back(prefix, kind);
    var sum := Checksum(front, back);
    SumBound(front);
    SumBound(back);
    Eight(6);
    NumberRoundTrip(sum, 6, [SPACE]);
    assert Octal(sum, 6) + [NUL, SPACE] == Octal(sum, 6) + [NUL] + [SPACE];
    HeaderSlices(prefix, name, size, kind);
    ChecksumIsSum(HeaderOf(prefix, name, size, kind));
  }

  lemma SizeRoundTrip(prefix: Bytes, name: Bytes, size: nat, kind: Byte)
    requires |prefix| <= PREFIX_LENGTH && |name| <= NAME_LENGTH && size < Pow8(11)
    ensures Number(HeaderOf(prefix, name, size, kind)[124..136]) == Some(size)
  {
    var h := HeaderOf(prefix, name, size, kind);
    HeaderSlices(prefix, name, size, kind);
    FrontSlices(name, size);
    assert h[124..136] == h[..148][124..136];
    NumberRoundTrip(size, 11, []);
    assert Octal(size, 11) + [NUL] == Octal(size, 11) + [NUL] + [];
  }

  lemma HeaderFields(prefix: Bytes, name: Bytes, size: nat, kind: Byte)
    requires |prefix| <= PREFIX_LENGTH && |name| <= NAME_LENGTH
    ensures var h := HeaderOf(prefix, name, size, kind);
            h[..100] == Pad(name, NAME_LENGTH) && h[345..500] == Pad(prefix, PREFIX_LENGTH) && h[156] == kind
  {
    var h := HeaderOf(prefix, name, size, kind);
    HeaderSlices(prefix, name, size, kind);
    FrontSlices(name, size);
    BackSlices(prefix, kind);
    assert h[..100] == h[..148][..100];
    assert h[345..500] == h[156..][189..344];
    assert h[156] == h[156..][0];
  }

  // "ustar" and a NUL
  const MAGIC: Bytes := [117, 115, 116, 97, 114, 0]

  /**
   The header fields of the format, by their offsets: name, mode 0644, owner and group 0, size, time 0,
   checksum, type, no link name, magic and version, no user, group and device, prefix.
   */
  ghost predicate IsUstar(h: Bytes, prefix: Bytes, name: Bytes, size: nat, kind: Byte)
    requires |h| == BLOCK && |prefix| <= PREFIX_LENGTH && |name| <= NAME_LENGTH
  {
    && h[..100] == name + Repeat(NUL, 100 - |name|)
    && Number(h[100..108]) == Some(6 * 64 + 4 * 8 + 4) && Number(h[108..116]) == Number(h[116..124]) == Some(0)
    && Number(h[124..136]) == Some(size) && Number(h[136..148]) == Some(0)
    && Number(h[148..156]) == Some(Sum(h[..148] + Repeat(SPACE, 8) + h[156..]))
    && h[156] == kind && h[157..257] == Repeat(NUL, 100)
    && h[257..263] == MAGIC && h[263..265] == [48, 48] && h[265..345] == Repeat(NUL, 80)
    && h[345..500] == prefix + Repeat(NUL, 155 - |prefix|) && h[500..] == Repeat(NUL, 12)
  }

  lemma OwnerFields()
    ensures Number(Owner()[..8]) == Some(420) && Number(Owner()[8..16]) == Number(Owner()[16..24]) == Some(0)
    ensures Number(Mtime()) == Some(0)
  {
    assert Owner()[..8] == Octal(420, 7) + [NUL] + [];
    assert Owner()[8..16] == Octal(0, 7) + [NUL] + [] == Owner()[16..24];
    assert Mtime() == Octal(0, 11) + [NUL] + [];
    Eight(6);
    assert Pow8(7) == 8 * Pow8(6) && Pow8(11) > 0;
    NumberRoundTrip(420, 7, []);
    NumberRoundTrip(0, 7, []);
    NumberRoundTrip(0, 11, []);
  }

  lemma MiddleFields()
    ensures Middle()[..100] == Repeat(NUL, 100) && Middle()[100..106] == MAGIC && Middle()[106..108] == [48, 48]
    ensures Middle()[108..] == Repeat(NUL, 80)
  {
  }

  lemma SliceOfSlice(s: Bytes, i: nat, j: nat, k: nat, l: nat)
    requires i <= j <= |s| && k <= l <= j - i
    ensures s[i..j][k..l] == s[i + k..i + l]
  {
    forall x | 0 <= x < l - k ensures s[i..j][k..l][x] == s[i + k..i + l][x] {
      assert s[i..j][k + x] == s[i + k + x];
    }
  }

  /** What is written is a USTAR header. */
  lemma HeaderIsUstar(prefix: Bytes, name: Bytes, size: nat, kind: Byte)
    requires |prefix| <= PREFIX_LENGTH && |name| <= NAME_LENGTH && size < Pow8(11)
    ensures IsUstar(HeaderOf(prefix, name, size, kind), prefix, name, size, kind)
  {
    HeaderFields(prefix, name, size, kind);
    ChecksumRoundTrip(prefix, name, size, kind);
    SizeRoundTrip(prefix, name, size, kind);
    FrontIsUstar(prefix, name, size, kind);
    BackIsUstar(prefix, name, size, kind);
  }

  lemma OwnerPart(h: Bytes)
    requires |h| == BLOCK && h[100..124] == Owner() && h[136..148] == Mtime()
    ensures Number(h[100..108]) == Some(420) && Number(h[108..116]) == Number(h[116..124]) == Some(0)
    ensures Number(h[136..148]) == Some(0)
  {
    OwnerFields();
    SliceOfSlice(h, 100, 124, 0, 8);
    SliceOfSlice(h, 100, 124, 8, 16);
    SliceOfSlice(h, 100, 124, 16, 24);
  }

  lemma FrontIsUstar(prefix: Bytes, name: Bytes, size: nat, kind: Byte)
    requires |prefix| <= PREFIX_LENGTH && |name| <= NAME_LENGTH
    ensures var h := HeaderOf(prefix, name, size, kind);
      && Number(h[100..108]) == Some(420) && Number(h[108..116]) == Number(h[116..124]) == Some(0)
      && Number(h[136..148]) == Some(0)
  {
    var h := HeaderOf(prefix, name, size, kind);
    FrontParts(prefix, name, size, kind);
    OwnerPart(h);
  }

  lemma FrontParts(prefix: Bytes, name: Bytes, size: nat, kind: Byte)
    requires |prefix| <= PREFIX_LENGTH && |name| <= NAME_LENGTH
    ensures var h := HeaderOf(prefix, name, size, kind); h[100..124] == Owner() && h[136..148] == Mtime()
  {
    var h := HeaderOf(prefix, name, size, kind);
    HeaderSlices(prefix, name, size, kind);
    FrontSlices(name, size);
    SliceOfSlice(h, 0, 148, 100, 124);
    SliceOfSlice(h, 0, 148, 136, 148);
  }

  lemma BackIsUstar(prefix: Bytes, name: Bytes, size: nat, kind: Byte)
    requires |prefix| <= PREFIX_LENGTH && |name| <= NAME_LENGTH
    ensures var h := HeaderOf(prefix, name, size, kind);
      && h[157..257] == Repeat(NUL, 100) && h[257..263] == MAGIC && h[263..265] == [48, 48]
      && h[265..345] == Repeat(NUL, 80) && h[500..] == Repeat(NUL, 12)
  {
    var h := HeaderOf(prefix, name, size, kind);
    HeaderSlices(prefix, name, size, kind);
    BackSlices(prefix, kind);
    MiddleFields();
    SliceOfSlice(h, 156, 512, 1, 189);
    SliceOfSlice(h, 156, 512, 344, 356);
    SliceOfSlice(h, 157, 345, 0, 100);
    SliceOfSlice(h, 157, 345, 100, 106);
    SliceOfSlice(h, 157, 345, 106, 108);
    SliceOfSlice(h, 157, 345, 108, 188);
  }

  lemma {:induction false} NothingThere(n: nat)
    requires n > 0
    ensures Number(Repeat(NUL, n)) == Some(0) && Cut(Repeat(NUL, n)) == []
  {
  }

  lemma LastNumbers(h: Bytes)
    requires |h| == BLOCK && h[157..257] == Repeat(NUL, 100) && h[265..345] == Repeat(NUL, 80)
    ensures Number(h[329..337]) == Number(h[337..345]) == Some(0)
    ensures Cut(h[157..257]) == Cut(h[265..297]) == Cut(h[297..329]) == []
  {
    SliceOfSlice(h, 265, 345, 0, 32);
    SliceOfSlice(h, 265, 345, 32, 64);
    SliceOfSlice(h, 265, 345, 64, 72);
    SliceOfSlice(h, 265, 345, 72, 80);
    assert h[265..297] == Repeat(NUL, 32) == h[297..329];
    assert h[329..337] == Repeat(NUL, 8) == h[337..345];
    NothingThere(100);
    NothingThere(32);
    NothingThere(8);
  }

  /** The fields that are the same in every header. */
  lemma OthersReadable(prefix: Bytes, name: Bytes, size: nat, kind: Byte)
    requires |prefix| <= PREFIX_LENGTH && |name| <= NAME_LENGTH && NUL !in prefix && NUL !in name
    requires Utf8(prefix) && Utf8(name)
    ensures var h := HeaderOf(prefix, name, size, kind); OtherNumbers(h) && Texts(h)
  {
    var h := HeaderOf(prefix, name, size, kind);
    FrontIsUstar(prefix, name, size, kind);
    BackIsUstar(prefix, name, size, kind);
    NameRoundTrip(prefix, name, size, kind);
    LastNumbers(h);
  }

  lemma NameRoundTrip(prefix: Bytes, name: Bytes, size: nat, kind: Byte)
    requires |prefix| <= PREFIX_LENGTH && |name| <= NAME_LENGTH
    requires NUL !in prefix && NUL !in name
    ensures var h := HeaderOf(prefix, name, size, kind);
            Cut(h[..100]) == name && Cut(h[345..500]) == prefix && h[156] == kind
  {
    HeaderFields(prefix, name, size, kind);
    CutPad(name, NAME_LENGTH);
    CutPad(prefix, PREFIX_LENGTH);
  }

  lemma CutPad(s: Bytes, n: nat)
    requires |s| <= n && NUL !in s
    ensures Cut(Pad(s, n)) == s
  {
    CutPadded(s, n - |s|);
  }

  /** The type that a reader takes a member for: in the old format a slash marks a directory. */
  function KindOf(name: Bytes, kind: Byte): Byte {
    if kind == NUL && name != [] && name[|name|-1] == SLASH then DIRECTORY else kind
  }

  /** The parts of the name joined. */
  function Told(prefix: Bytes, name: Bytes, size: nat, kind: Byte): Member {
    var last := if kind == DIRECTORY then TrimSlashes(name) else name;
    Member(if prefix == [] || GnuType(kind) then last else prefix + [SLASH] + last, size, kind)
  }

  /** What decoding gives for the parts of a header, of whatever type. */
  lemma DecodeParts(prefix: Bytes, name: Bytes, size: nat, kind: Byte)
    requires |prefix| <= PREFIX_LENGTH && |name| <= NAME_LENGTH && size < Pow8(11)
    requires NUL !in prefix && NUL !in name && Utf8(prefix) && Utf8(name)
    ensures Decode(HeaderOf(prefix, name, size, kind)) == Some(Told(prefix, name, size, KindOf(name, kind)))
  {
    HeaderSlices(prefix, name, size, kind);
    ChecksumRoundTrip(prefix, name, size, kind);
    SizeRoundTrip(prefix, name, size, kind);
    NameRoundTrip(prefix, name, size, kind);
    OthersReadable(prefix, name, size, kind);
    DecodesIff(HeaderOf(prefix, name, size, kind));
  }

  lemma DirectoryNames(name: Bytes)
    requires name != [] && name[|name|-1] != SLASH && Utf8(name)
    ensures TrimSlashes(name) == TrimSlashes(name + [SLASH]) == name && Utf8(name + [SLASH])
  {
    assert (name + [SLASH])[..|name|] == name;
    assert [SLASH][1..] == [] && Utf8([SLASH]);
    Utf8Append(name, [SLASH]);
  }

  lemma DirectoryIs(prefix: Bytes, name: Bytes, written: Bytes, kind: Byte)
    requires |prefix| <= PREFIX_LENGTH && |written| <= NAME_LENGTH && NUL !in prefix && NUL !in written
    requires Utf8(prefix) && Utf8(written) && TrimSlashes(written) == TrimSlashes(name) == name
    requires KindOf(written, kind) == DIRECTORY
    ensures Decode(HeaderOf(prefix, written, 0, kind)) == Some(Told(prefix, name, 0, DIRECTORY))
  {
    assert Pow8(11) > 0;
    DecodeParts(prefix, written, 0, kind);
  }

  /** A directory's header, with or without a slash after its name. */
  lemma DirectoryReads(prefix: Bytes, name: Bytes)
    requires |prefix| <= PREFIX_LENGTH && |name| < NAME_LENGTH && NUL !in prefix && NUL !in name
    requires name != [] && name[|name|-1] != SLASH && Utf8(prefix) && Utf8(name)
    ensures var read := Some(Told(prefix, name, 0, DIRECTORY));
            && read.value.name == (if prefix == [] then name else prefix + [SLASH] + name)
            && Decode(HeaderOf(prefix, name, 0, DIRECTORY)) == read
            && Decode(HeaderOf(prefix, name + [SLASH], 0, DIRECTORY)) == read
            && Decode(HeaderOf(prefix, name + [SLASH], 0, NUL)) == read
  {
    DirectoryNames(name);
    DirectoryIs(prefix, name, name, DIRECTORY);
    DirectoryIs(prefix, name, name + [SLASH], DIRECTORY);
    DirectoryIs(prefix, name, name + [SLASH], NUL);
  }

  lemma FieldsAreTexts(name: Bytes)
    requires Encodable(name) && NUL !in name && Utf8(name)
    ensures var (prefix, tail) := Fields(name).value; Utf8(prefix) && Utf8(tail) && NUL !in prefix && NUL !in tail
  {
    var (prefix, tail) := Fields(name).value;
    if |name| > NAME_LENGTH { Utf8Split(prefix, SLASH, tail); }
  }

  lemma FieldsTell(name: Bytes, size: nat)
    requires Encodable(name) && (|name| > NAME_LENGTH ==> name[0] != SLASH)
    ensures var (prefix, tail) := Fields(name).value; Told(prefix, tail, size, REGULAR) == Member(name, size, REGULAR)
  {
  }

  /** Reading the header that was written for a name gives back the name, the size and a regular type. */
  lemma HeaderRoundTrip(name: Bytes, size: nat)
    requires Encodable(name) && NUL !in name && Utf8(name) && size < Pow8(11)
    requires |name| > NAME_LENGTH ==> name[0] != SLASH
    ensures var (prefix, tail) := Fields(name).value;
            Decode(Header(prefix, tail, size)) == Some(Member(name, size, REGULAR))
  {
    FieldsAreTexts(name);
    FieldsTell(name, size);
    DecodeRegular(Fields(name).value.0, Fields(name).value.1, size);
  }

  lemma DecodeRegular(prefix: Bytes, name: Bytes, size: nat)
    requires |prefix| <= PREFIX_LENGTH && |name| <= NAME_LENGTH && size < Pow8(11)
    requires NUL !in prefix && NUL !in name && Utf8(prefix) && Utf8(name)
    ensures Decode(Header(prefix, name, size)) == Some(Told(prefix, name, size, REGULAR))
  {
    DecodeParts(prefix, name, size, REGULAR);
  }
}
