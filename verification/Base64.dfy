/** The buffer-driven base64 encoder and decoder, against section 4 of RFC 4648. */
module Base64 {

  // ---- The alphabet ----

  const ALPHABET: string :=
    "ABCDEFGHIJKLMNOPQRSTUVWXYZ" +
    "abcdefghijklmnopqrstuvwxyz" +
    "0123456789+/"

  const PAD: char := '='

  predicate IsBase64(c: char) {
    'A' <= c <= 'Z' || 'a' <= c <= 'z' || '0' <= c <= '9' || c == '+' || c == '/'
  }

  function Position(s: string, c: char): (p: nat)
    ensures p <= |s| && (p < |s| ==> s[p] == c) && forall i :: 0 <= i < p ==> s[i] != c
  {
    if s == "" || s[0] == c then 0 else 1 + Position(s[1..], c)
  }

  /** Position in the alphabet; "not found" is all ones, which an unsigned char keeps as 255. */
  function Find(c: char): bv8 {
    var p := Position(ALPHABET, c);
    if p < 64 then AsByte(p) else 0xff
  }

  function Letter(d: bv8): char
    requires d < 64
  {
    ALPHABET[d as int]
  }

  function LetterCode(k: nat): nat {
    if k < 26 then 65 + k else if k < 52 then 71 + k else if k < 62 then k - 4 else if k == 62 then 43 else 47
  }

  lemma UpperAt(k: nat)
    requires k < 26
    ensures ALPHABET[k] as int == LetterCode(k)
  {
    assert "ABCDEFGHIJKLMNOPQRSTUVWXYZ"[k] as int == 65 + k;
  }

  lemma LowerAt(k: nat)
    requires 26 <= k < 52
    ensures ALPHABET[k] as int == LetterCode(k)
  {
    assert "abcdefghijklmnopqrstuvwxyz"[k - 26] as int == 71 + k;
  }

  lemma OtherAt(k: nat)
    requires 52 <= k < 64
    ensures ALPHABET[k] as int == LetterCode(k)
  {
    assert "0123456789+/"[k - 52] as int == if k < 62 then k - 4 else if k == 62 then 43 else 47;
  }

  lemma AlphabetAt(k: nat)
    requires k < 64
    ensures |ALPHABET| == 64 && ALPHABET[k] as int == LetterCode(k)
  {
    hide LetterCode;
    if k < 26 {
      UpperAt(k);
    } else if k < 52 {
      LowerAt(k);
    } else {
      OtherAt(k);
    }
  }

  function AsByte(k: int): bv8
    requires 0 <= k < 256
  {
    k as bv8
  }

  lemma NextByte(b: bv8)
    requires b < 0xff
    ensures (b + 1) as int == b as int + 1
  {
  }

  lemma {:induction false} SomeByte(k: nat) returns (b: bv8)
    requires k < 256
    ensures b as int == k
  {
    if k == 0 {
      b := 0;
    } else {
      b := SomeByte(k - 1);
      NextByte(b);
      b := b + 1;
    }
  }

  lemma ByteOfInt(k: int)
    requires 0 <= k < 256
    ensures AsByte(k) as int == k
  {
    var b := SomeByte(k);
    assert b as int as bv8 == b;
  }

  /** Every digit is found again from its letter. */
  lemma FindLetter(d: bv8)
    requires d < 64
    ensures IsBase64(Letter(d)) && Find(Letter(d)) == d
  {
    var k := d as int;
    var p := Position(ALPHABET, ALPHABET[k]);
    AlphabetAt(k);
    hide *;
    if p != k {
      AlphabetAt(p);
    }
  }

  /** The letters are exactly the characters that are found. */
  lemma LetterFind(c: char)
    ensures IsBase64(c) ==> Find(c) < 64 && Letter(Find(c)) == c
    ensures !IsBase64(c) ==> Find(c) == 0xff
  {
    var p := Position(ALPHABET, c);
    if p < 64 {
      AlphabetAt(p);
      ByteOfInt(p);
    } else if IsBase64(c) {
      var n := c as int;
      var k := if 65 <= n <= 90 then n - 65 else if 97 <= n <= 122 then n - 71 else if 48 <= n <= 57 then n + 4 else if n == 43 then 62 else 63;
      AlphabetAt(k);
    }
  }

  // ---- RFC 4648, section 4 ----

  /** Three bytes side by side. */
  function Group(a: bv8, b: bv8, c: bv8): bv24 {
    (a as bv24 << 16) | (b as bv24 << 8) | c as bv24
  }

  /** Four six-bit digits side by side. */
  function Ungroup(a: bv8, b: bv8, c: bv8, d: bv8): bv24 {
    (a as bv24 << 18) | (b as bv24 << 12) | (c as bv24 << 6) | d as bv24
  }

  /** The k-th six bits. */
  function Digit(v: bv24, k: nat): (d: bv8)
    requires k < 4
    ensures d < 64
  {
    ((if k == 0 then v >> 18 else if k == 1 then v >> 12 else if k == 2 then v >> 6 else v) & 0x3f) as bv8
  }

  /** The k-th eight bits. */
  function Byte(v: bv24, k: nat): bv8
    requires k < 3
  {
    ((if k == 0 then v >> 16 else if k == 1 then v >> 8 else v) & 0xff) as bv8
  }

  function Letters(v: bv24): (s: string)
    ensures |s| == 4
  {
    [Letter(Digit(v, 0)), Letter(Digit(v, 1)), Letter(Digit(v, 2)), Letter(Digit(v, 3))]
  }

  function Bytes(v: bv24): (s: seq<bv8>)
    ensures |s| == 3
  {
    [Byte(v, 0), Byte(v, 1), Byte(v, 2)]
  }

  /** Groups of 24 bits become four letters; missing bytes are zero bits, and the letters
      that hold none of the input are padding. */
  function Encoded(x: seq<bv8>): string {
    if x == [] then ""
    else if |x| == 1 then Letters(Group(x[0], 0, 0))[..2] + [PAD, PAD]
    else if |x| == 2 then Letters(Group(x[0], x[1], 0))[..3] + [PAD]
    else Letters(Group(x[0], x[1], x[2])) + Encoded(x[3..])
  }

  /** How many letters a string starts with. */
  function Leading(s: string): (n: nat)
    ensures n <= |s| && (n < |s| ==> !IsBase64(s[n])) && forall i :: 0 <= i < n ==> IsBase64(s[i])
  {
    if s == "" || !IsBase64(s[0]) then 0 else 1 + Leading(s[1..])
  }

  /** The bytes of a last group of fewer than four letters. */
  function DecodedTail(s: string): (x: seq<bv8>)
    requires |s| < 4
    ensures |x| == if s == "" then 0 else |s| - 1
  {
    if |s| < 2 then []
    else if |s| == 2 then Bytes(Ungroup(Find(s[0]), Find(s[1]), 0, 0))[..1]
    else Bytes(Ungroup(Find(s[0]), Find(s[1]), Find(s[2]), 0))[..2]
  }

  /** Four letters at a time, up to the first character that is no letter. */
  function Decoded(s: string): seq<bv8> {
    if Leading(s) < 4 then DecodedTail(s[..Leading(s)])
    else Bytes(Ungroup(Find(s[0]), Find(s[1]), Find(s[2]), Find(s[3]))) + Decoded(s[4..])
  }

  /** Whole quads of letters, the last possibly padded with the bits behind the padding zero. */
  predicate Canonical(s: string) {
    if s == "" then true
    else if |s| < 4 then false
    else if Leading(s) >= 4 then Canonical(s[4..])
    else
      && |s| == 4
      && s[3] == PAD
      && ((Leading(s) == 3 && Find(s[2]) & 0x3 == 0) || (Leading(s) == 2 && s[2] == PAD && Find(s[1]) & 0xf == 0))
  }

  // ---- Properties ----

  lemma {:induction false} EncodedLength(x: seq<bv8>)
    ensures |Encoded(x)| == 4 * ((|x| + 2) / 3)
  {
    if |x| >= 3 {
      EncodedLength(x[3..]);
    }
  }

  lemma LettersAre(v: bv24, a: bv8, b: bv8, c: bv8, d: bv8)
    requires Digit(v, 0) == a && Digit(v, 1) == b && Digit(v, 2) == c && Digit(v, 3) == d
    ensures a < 64 && b < 64 && c < 64 && d < 64
    ensures Letters(v) == [ALPHABET[a as int], ALPHABET[b as int], ALPHABET[c as int], ALPHABET[d as int]]
  {
  }

  lemma ShortVectors()
    ensures Encoded([]) == ""
    ensures Encoded([0x66]) == "Zg=="
    ensures Encoded([0x66, 0x6f]) == "Zm8="
    ensures Encoded([0x66, 0x6f, 0x6f]) == "Zm9v"
  {
    LettersAre(Group(0x66, 0x6f, 0x6f), 25, 38, 61, 47);
    LettersAre(Group(0x66, 0, 0), 25, 32, 0, 0);
    LettersAre(Group(0x66, 0x6f, 0), 25, 38, 60, 0);
    hide Letters, Group;
  }

  lemma SecondHalves()
    ensures Encoded([0x62]) == "Yg=="
    ensures Encoded([0x62, 0x61]) == "YmE="
    ensures Encoded([0x62, 0x61, 0x72]) == "YmFy"
  {
    LettersAre(Group(0x62, 0x61, 0x72), 24, 38, 5, 50);
    LettersAre(Group(0x62, 0, 0), 24, 32, 0, 0);
    LettersAre(Group(0x62, 0x61, 0), 24, 38, 4, 0);
    hide Letters, Group;
  }

  /** The test vectors of section 10 of RFC 4648: "", "f", "fo", "foo", "foob", "fooba" and
      "foobar". */
  lemma RfcVectors()
    ensures Encoded([]) == ""
    ensures Encoded([0x66]) == "Zg=="
    ensures Encoded([0x66, 0x6f]) == "Zm8="
    ensures Encoded([0x66, 0x6f, 0x6f]) == "Zm9v"
    ensures Encoded([0x66, 0x6f, 0x6f, 0x62]) == "Zm9vYg=="
    ensures Encoded([0x66, 0x6f, 0x6f, 0x62, 0x61]) == "Zm9vYmE="
    ensures Encoded([0x66, 0x6f, 0x6f, 0x62, 0x61, 0x72]) == "Zm9vYmFy"
  {
    ShortVectors();
    SecondHalves();
    var foo: seq<bv8> := [0x66, 0x6f, 0x6f];
    EncodedSplit(foo, [0x62]);
    EncodedSplit(foo, [0x62, 0x61]);
    EncodedSplit(foo, [0x62, 0x61, 0x72]);
    hide Encoded;
    assert foo + [0x62] == [0x66, 0x6f, 0x6f, 0x62];
    assert foo + [0x62, 0x61] == [0x66, 0x6f, 0x6f, 0x62, 0x61];
    assert foo + [0x62, 0x61, 0x72] == [0x66, 0x6f, 0x6f, 0x62, 0x61, 0x72];
  }

  /** Encoding splits at every multiple of three bytes. */
  lemma {:induction false} EncodedSplit(a: seq<bv8>, b: seq<bv8>)
    requires |a| % 3 == 0
    ensures Encoded(a + b) == Encoded(a) + Encoded(b)
  {
    if a == [] {
      assert a + b == b;
    } else {
      assert (a + b)[3..] == a[3..] + b;
      EncodedSplit(a[3..], b);
    }
  }

  lemma GroupBytes(a: bv8, b: bv8, c: bv8)
    ensures Bytes(Group(a, b, c)) == [a, b, c]
  {
    assert var v := Group(a, b, c); Byte(v, 0) == a && Byte(v, 1) == b && Byte(v, 2) == c;
  }

  lemma DigitsBack(v: bv24)
    ensures Ungroup(Digit(v, 0), Digit(v, 1), Digit(v, 2), Digit(v, 3)) == v
  {
  }

  lemma BytesBack(v: bv24)
    ensures Group(Byte(v, 0), Byte(v, 1), Byte(v, 2)) == v
  {
  }

  lemma UngroupDigits(a: bv8, b: bv8, c: bv8, d: bv8)
    requires a < 64 && b < 64 && c < 64 && d < 64
    ensures var v := Ungroup(a, b, c, d);
            Digit(v, 0) == a && Digit(v, 1) == b && Digit(v, 2) == c && Digit(v, 3) == d
  {
  }

  /** A byte depends on no digit behind it: whatever stands for the missing ones. */
  lemma AnyFiller(a: bv8, b: bv8, c: bv8, d: bv8, c': bv8, d': bv8)
    requires c < 64 && d < 64 && c' < 64 && d' < 64
    ensures Byte(Ungroup(a, b, c, d), 0) == Byte(Ungroup(a, b, c', d'), 0)
    ensures Byte(Ungroup(a, b, c, d), 1) == Byte(Ungroup(a, b, c, d'), 1)
  {
  }

  lemma ZeroBytes(a: bv8, b: bv8, c: bv8)
    requires a < 64 && b < 64 && c < 64
    ensures Byte(Ungroup(a, b, c, 0), 2) == 0 <==> c & 0x3 == 0
    ensures Byte(Ungroup(a, b, 0, 0), 1) == 0 && Byte(Ungroup(a, b, 0, 0), 2) == 0 <==> b & 0xf == 0
  {
  }

  lemma GroupZeros(a: bv8, b: bv8)
    ensures Digit(Group(a, b, 0), 3) == 0 && Digit(Group(a, b, 0), 2) & 0x3 == 0
    ensures Digit(Group(a, 0, 0), 2) == 0 && Digit(Group(a, 0, 0), 1) & 0xf == 0
  {
  }

  lemma LettersFound(v: bv24, k: nat)
    requires k < 4
    ensures IsBase64(Letters(v)[k]) && Find(Letters(v)[k]) == Digit(v, k)
  {
    FindLetter(Digit(v, k));
    hide Find, Letter, IsBase64, Digit;
  }

  lemma LettersDecode(v: bv24, s: string)
    requires |s| >= 4 && s[0] == Letters(v)[0] && s[1] == Letters(v)[1] && s[2] == Letters(v)[2] && s[3] == Letters(v)[3]
    ensures Leading(s) >= 4 && Ungroup(Find(s[0]), Find(s[1]), Find(s[2]), Find(s[3])) == v
  {
    hide *;
    LettersFound(v, 0);
    LettersFound(v, 1);
    LettersFound(v, 2);
    LettersFound(v, 3);
    DigitsBack(v);
    LeadingAtLeast(s, 4);
  }

  lemma PadIsNoLetter()
    ensures !IsBase64(PAD)
  {
  }

  /** The padded quad of one last byte. */
  lemma OneDecode(a: bv8)
    ensures var s := Letters(Group(a, 0, 0))[..2] + [PAD, PAD];
            Leading(s) == 2 && Decoded(s) == [a] && Canonical(s)
  {
    var v := Group(a, 0, 0);
    var s := Letters(v)[..2] + [PAD, PAD];
    LettersFound(v, 0);
    LettersFound(v, 1);
    GroupZeros(a, 0);
    GroupBytes(a, 0, 0);
    DigitsBack(v);
    PadIsNoLetter();
    hide Find, Letter, Digit, Letters, Ungroup, Group, IsBase64, Bytes;
    LeadingIs(s, 2);
    hide Leading;
    assert s[..2] == Letters(v)[..2];
  }

  /** The padded quad of two. */
  lemma TwoDecode(a: bv8, b: bv8)
    ensures var s := Letters(Group(a, b, 0))[..3] + [PAD];
            Leading(s) == 3 && Decoded(s) == [a, b] && Canonical(s)
  {
    var v := Group(a, b, 0);
    var s := Letters(v)[..3] + [PAD];
    LettersFound(v, 0);
    LettersFound(v, 1);
    LettersFound(v, 2);
    GroupZeros(a, b);
    GroupBytes(a, b, 0);
    DigitsBack(v);
    PadIsNoLetter();
    hide Find, Letter, Digit, Letters, Ungroup, Group, IsBase64, Bytes;
    LeadingIs(s, 3);
    hide Leading;
    assert s[..3] == Letters(v)[..3];
  }

  lemma LeadingIs(s: string, n: nat)
    requires n <= |s| && (forall i :: 0 <= i < n ==> IsBase64(s[i])) && (n < |s| ==> !IsBase64(s[n]))
    ensures Leading(s) == n
  {
  }

  lemma LeadingAtLeast(s: string, n: nat)
    requires n <= |s| && forall i :: 0 <= i < n ==> IsBase64(s[i])
    ensures Leading(s) >= n
  {
  }

  lemma {:induction false} RoundTrip(x: seq<bv8>)
    ensures Decoded(Encoded(x)) == x && Canonical(Encoded(x))
  {
    hide Canonical, DecodedTail, Letters, Bytes, Group, Ungroup, Find, IsBase64, Leading;
    if |x| >= 3 {
      var s := Encoded(x);
      assert s[4..] == Encoded(x[3..]);
      LettersDecode(Group(x[0], x[1], x[2]), s);
      GroupBytes(x[0], x[1], x[2]);
      RoundTrip(x[3..]);
      CanonicalStep(s);
    } else if |x| == 2 {
      TwoDecode(x[0], x[1]);
    } else if |x| == 1 {
      OneDecode(x[0]);
    } else {
      EmptyDecoded();
    }
  }

  lemma CanonicalStep(s: string)
    requires Leading(s) >= 4
    ensures Canonical(s) <==> Canonical(s[4..])
  {
  }

  lemma EmptyDecoded()
    ensures Decoded("") == [] && Canonical("")
  {
  }

  /** What is decoded are the six bits of every letter before the first other character, in
      whole bytes. */
  lemma {:induction false} DecodedLeading(s: string)
    ensures Decoded(s) == Decoded(s[..Leading(s)])
    ensures |Decoded(s)| == Leading(s) * 3 / 4
  {
    hide Find, Bytes, Ungroup, IsBase64;
    var n := Leading(s);
    LeadingIs(s[..n], n);
    if n >= 4 {
      DecodedLeading(s[4..]);
      LeadingIs(s[4..], n - 4);
      assert s[..n][4..] == s[4..][..n - 4];
    } else {
      assert s[..n][..n] == s[..n];
    }
  }

  /** A quad of letters is the encoding of its bytes. */
  lemma QuadBack(s: string)
    requires Leading(s) >= 4
    ensures var v := Ungroup(Find(s[0]), Find(s[1]), Find(s[2]), Find(s[3]));
            Letters(Group(Byte(v, 0), Byte(v, 1), Byte(v, 2))) == s[..4]
  {
    hide *;
    LetterFind(s[0]);
    LetterFind(s[1]);
    LetterFind(s[2]);
    LetterFind(s[3]);
    LettersOf(Find(s[0]), Find(s[1]), Find(s[2]), Find(s[3]));
    BytesBack(Ungroup(Find(s[0]), Find(s[1]), Find(s[2]), Find(s[3])));
    assert s[..4] == [s[0], s[1], s[2], s[3]];
  }

  lemma LettersOf(a: bv8, b: bv8, c: bv8, d: bv8)
    requires a < 64 && b < 64 && c < 64 && d < 64
    ensures Letters(Ungroup(a, b, c, d)) == [Letter(a), Letter(b), Letter(c), Letter(d)]
  {
    UngroupDigits(a, b, c, d);
    hide Digit, Letter, Ungroup;
  }

  /** So is a padded one. */
  lemma OneBack(a: bv8, b: bv8)
    requires a < 64 && b < 64 && b & 0xf == 0
    ensures Letters(Group(Bytes(Ungroup(a, b, 0, 0))[0], 0, 0))[..2] == [Letter(a), Letter(b)]
  {
    ZeroBytes(a, b, 0);
    BytesBack(Ungroup(a, b, 0, 0));
    hide Byte, Group, Ungroup, Letter, Digit;
    LettersOf(a, b, 0, 0);
  }

  lemma TwoBack(a: bv8, b: bv8, c: bv8)
    requires a < 64 && b < 64 && c < 64 && c & 0x3 == 0
    ensures var x := Bytes(Ungroup(a, b, c, 0));
            Letters(Group(x[0], x[1], 0))[..3] == [Letter(a), Letter(b), Letter(c)]
  {
    ZeroBytes(a, b, c);
    BytesBack(Ungroup(a, b, c, 0));
    hide Byte, Group, Ungroup, Letter, Digit;
    LettersOf(a, b, c, 0);
  }

  lemma TailBack(s: string)
    requires |s| == 4 && Canonical(s) && Leading(s) < 4
    ensures Encoded(Decoded(s)) == s
  {
    hide Find, Letter, IsBase64, Letters, Bytes, Group, Ungroup, Leading;
    LetterFind(s[0]);
    LetterFind(s[1]);
    if Leading(s) == 3 {
      LetterFind(s[2]);
      TwoBack(Find(s[0]), Find(s[1]), Find(s[2]));
    } else {
      OneBack(Find(s[0]), Find(s[1]));
    }
  }

  /** Decoding then encoding gives back exactly the canonical strings: which are therefore the
      encodings. */
  lemma {:induction false} CanonicalIff(s: string)
    ensures Encoded(Decoded(s)) == s <==> Canonical(s)
  {
    RoundTrip(Decoded(s));
    if Canonical(s) {
      CanonicalBack(s);
    }
  }

  lemma {:induction false} CanonicalBack(s: string)
    requires Canonical(s)
    ensures Encoded(Decoded(s)) == s
  {
    hide Letters, Group, Ungroup, Find, IsBase64, Leading, Byte;
    if s == "" {
      EmptyDecoded();
    } else if Leading(s) < 4 {
      TailBack(s);
    } else {
      QuadBack(s);
      CanonicalBack(s[4..]);
      hide Canonical;
      assert Decoded(s)[3..] == Decoded(s[4..]);
      assert s == s[..4] + s[4..];
    }
  }

  // ---- The buffer-driven code ----

  function DigitsOf(v: bv24): (ds: seq<bv8>)
    ensures |ds| == 4
  {
    [Digit(v, 0), Digit(v, 1), Digit(v, 2), Digit(v, 3)]
  }

  lemma DigitBits(a: bv8, b: bv8, c: bv8)
    ensures DigitsOf(Group(a, b, c)) ==
            [(a & 0xfc) >> 2, ((a & 0x03) << 4) + ((b & 0xf0) >> 4), ((b & 0x0f) << 2) + ((c & 0xc0) >> 6), c & 0x3f]
  {
    assert var v := Group(a, b, c);
      && Digit(v, 0) == (a & 0xfc) >> 2
      && Digit(v, 1) == ((a & 0x03) << 4) + ((b & 0xf0) >> 4)
      && Digit(v, 2) == ((b & 0x0f) << 2) + ((c & 0xc0) >> 6)
      && Digit(v, 3) == c & 0x3f;
  }

  lemma LetterOfDigit(v: bv24, j: nat)
    requires j < 4
    ensures DigitsOf(v)[j] < 64 && Letter(DigitsOf(v)[j]) == Letters(v)[j]
  {
  }

  lemma EncodedFull(t: seq<bv8>)
    requires |t| == 3
    ensures Encoded(t) == Letters(Group(t[0], t[1], t[2]))
  {
    hide Letters, Group;
    assert Encoded(t[3..]) == "";
  }

  lemma EncodedMore(x: seq<bv8>, at: nat)
    requires 3 <= at <= |x| && at % 3 == 0
    ensures Encoded(x[..at]) == Encoded(x[..at - 3]) + Letters(Group(x[at - 3], x[at - 2], x[at - 1]))
  {
    hide *;
    var front, last := x[..at - 3], x[at - 3..at];
    assert front + last == x[..at];
    EncodedSplit(front, last);
    EncodedFull(last);
  }

  method FillDigits(bytes: array<bv8>, digits: array<bv8>)
    requires bytes.Length == 3 && digits.Length == 4
    modifies digits
    ensures digits[..] == DigitsOf(Group(bytes[0], bytes[1], bytes[2]))
  {
    hide *;
    DigitBits(bytes[0], bytes[1], bytes[2]);
    digits[0] := (bytes[0] & 0xfc) >> 2;
    digits[1] := ((bytes[0] & 0x03) << 4) + ((bytes[1] & 0xf0) >> 4);
    digits[2] := ((bytes[1] & 0x0f) << 2) + ((bytes[2] & 0xc0) >> 6);
    digits[3] := bytes[2] & 0x3f;
  }

  /** Turn the buffered bytes into digits and append the letters of the first n. */
  method EncodeBuffer(bytes: array<bv8>, digits: array<bv8>, n: nat, before: string) returns (ret: string)
    requires bytes.Length == 3 && digits.Length == 4 && n <= 4
    modifies digits
    ensures ret == before + Letters(Group(bytes[0], bytes[1], bytes[2]))[..n]
  {
    hide *;
    FillDigits(bytes, digits);
    ghost var v := Group(bytes[0], bytes[1], bytes[2]);
    ret := before;
    for j := 0 to n
      invariant digits[..] == DigitsOf(v)
      invariant ret == before + Letters(v)[..j]
    {
      LetterOfDigit(v, j);
      ret := ret + [Letter(digits[j])];
    }
  }

  method Base64Encode(x: seq<bv8>) returns (ret: string)
    ensures ret == Encoded(x)
  {
    hide *;
    ret := "";
    var i, at := 0, 0;
    var bytes, digits := new bv8[3], new bv8[4];
    EmptyEncoded(x);
    while at < |x|
      invariant 0 <= i <= at <= |x| && i < 3 && (at - i) % 3 == 0
      invariant forall k :: 0 <= k < i ==> bytes[k] == x[at - i + k]
      invariant ret == Encoded(x[..at - i])
    {
      bytes[i] := x[at];
      i, at := i + 1, at + 1;
      if i == 3 {
        ret := EncodeBuffer(bytes, digits, 4, ret);
        EncodedMore(x, at);
        i := 0;
      }
    }
    if i > 0 {
      for j := i to 3
        invariant forall k :: 0 <= k < i ==> bytes[k] == x[at - i + k]
        invariant forall k :: i <= k < j ==> bytes[k] == 0
      {
        bytes[j] := 0;
      }
      assert Group(bytes[0], bytes[1], bytes[2]) == Group(x[at - i], if i == 2 then x[at - 1] else 0, 0);
      ret := EncodeBuffer(bytes, digits, i + 1, ret);
      ghost var letters, k := ret, i;
      while i < 3
        invariant k <= i <= 3
        invariant ret == letters + [PAD, PAD, PAD][..i - k]
      {
        ret := ret + [PAD];
        i := i + 1;
      }
      EncodedTail(x, k);
    }
  }

  lemma EmptyEncoded(x: seq<bv8>)
    ensures Encoded(x[..0]) == "" && x[..|x|] == x
  {
  }

  lemma EncodedShort(t: seq<bv8>)
    ensures |t| == 1 ==> Encoded(t) == Letters(Group(t[0], 0, 0))[..2] + [PAD, PAD]
    ensures |t| == 2 ==> Encoded(t) == Letters(Group(t[0], t[1], 0))[..3] + [PAD]
  {
  }

  lemma EncodedTail(x: seq<bv8>, k: nat)
    requires k == |x| % 3
    ensures k == 1 ==> Encoded(x) == Encoded(x[..|x| - 1]) + (Letters(Group(x[|x| - 1], 0, 0))[..2] + [PAD, PAD])
    ensures k == 2 ==> Encoded(x) == Encoded(x[..|x| - 2]) + (Letters(Group(x[|x| - 2], x[|x| - 1], 0))[..3] + [PAD])
  {
    hide *;
    var front, tail := x[..|x| - k], x[|x| - k..];
    assert x == front + tail;
    EncodedSplit(front, tail);
    EncodedShort(tail);
  }

  /** The three bytes, each from the digits it depends on. */
  lemma ByteBits(a: bv8, b: bv8, c: bv8, d: bv8)
    ensures a < 64 && b < 64 ==> (a << 2) + ((b & 0x30) >> 4) == Byte(Ungroup(a, b, 0, 0), 0)
    ensures b < 64 && c < 64 ==> ((b & 0xf) << 4) + ((c & 0x3c) >> 2) == Byte(Ungroup(a, b, c, 0), 1)
    ensures c < 64 && d < 64 ==> ((c & 0x3) << 6) + d == Byte(Ungroup(a, b, c, d), 2)
  {
  }

  method FillBytes(digits: array<bv8>, bytes: array<bv8>)
    requires bytes.Length == 3 && digits.Length == 4
    modifies bytes
    ensures digits[0] < 64 && digits[1] < 64 ==> bytes[0] == Byte(Ungroup(digits[0], digits[1], 0, 0), 0)
    ensures digits[1] < 64 && digits[2] < 64 ==> bytes[1] == Byte(Ungroup(digits[0], digits[1], digits[2], 0), 1)
    ensures digits[2] < 64 && digits[3] < 64 ==> bytes[2] == Byte(Ungroup(digits[0], digits[1], digits[2], digits[3]), 2)
  {
    hide *;
    ByteBits(digits[0], digits[1], digits[2], digits[3]);
    bytes[0] := (digits[0] << 2) + ((digits[1] & 0x30) >> 4);
    bytes[1] := ((digits[1] & 0xf) << 4) + ((digits[2] & 0x3c) >> 2);
    bytes[2] := ((digits[2] & 0x3) << 6) + digits[3];
  }

  /** The character code that the buffer holds for a letter. */
  function Code(c: char): bv8
    requires IsBase64(c)
  {
    AsByte(c as int)
  }

  function Coded(b: bv8): char {
    b as int as char
  }

  lemma CodeBack(c: char)
    requires IsBase64(c)
    ensures Coded(Code(c)) == c
  {
    ByteOfInt(c as int);
  }

  /** Replace every character code by its position in the alphabet. */
  method FindAll(digits: array<bv8>)
    requires digits.Length == 4
    modifies digits
    ensures forall k :: 0 <= k < 4 ==> digits[k] == Find(Coded(old(digits[k])))
  {
    hide *;
    for j := 0 to 4
      invariant forall k :: 0 <= k < j ==> digits[k] == Find(Coded(old(digits[k])))
      invariant forall k :: j <= k < 4 ==> digits[k] == old(digits[k])
    {
      digits[j] := Find(Coded(digits[j]));
    }
  }

  lemma FullBytes(s: string)
    requires Leading(s) >= 4
    ensures var a, b, c, d := Find(s[0]), Find(s[1]), Find(s[2]), Find(s[3]);
            && a < 64 && b < 64 && c < 64 && d < 64
            && Decoded(s) == [Byte(Ungroup(a, b, 0, 0), 0), Byte(Ungroup(a, b, c, 0), 1), Byte(Ungroup(a, b, c, d), 2)]
                             + Decoded(s[4..])
  {
    hide Find, IsBase64, Letter;
    LetterFind(s[0]);
    LetterFind(s[1]);
    LetterFind(s[2]);
    LetterFind(s[3]);
    AnyFiller(Find(s[0]), Find(s[1]), Find(s[2]), Find(s[3]), 0, 0);
    hide Byte, Ungroup;
  }

  lemma TailBytes(s: string)
    requires Leading(s) < 4
    ensures Leading(s) <= 1 ==> Decoded(s) == []
    ensures Leading(s) == 2 ==> Find(s[0]) < 64 && Find(s[1]) < 64 && Decoded(s) == [Byte(Ungroup(Find(s[0]), Find(s[1]), 0, 0), 0)]
    ensures Leading(s) == 3 ==>
              && Find(s[0]) < 64 && Find(s[1]) < 64 && Find(s[2]) < 64
              && Decoded(s) == [Byte(Ungroup(Find(s[0]), Find(s[1]), 0, 0), 0), Byte(Ungroup(Find(s[0]), Find(s[1]), Find(s[2]), 0), 1)]
  {
    hide Find, IsBase64, Letter;
    if Leading(s) >= 2 {
      LetterFind(s[0]);
      LetterFind(s[1]);
    }
    if Leading(s) == 3 {
      LetterFind(s[2]);
      AnyFiller(Find(s[0]), Find(s[1]), Find(s[2]), 0, 0, 0);
    }
    hide Byte, Ungroup;
  }

  /** What the decoding of a string starts with when its first n letters are buffered. */
  function Decodable(rest: string, n: nat): (x: seq<bv8>)
    requires n <= 4 && n <= |rest| && (if n == 4 then Leading(rest) >= 4 else Leading(rest) == n)
  {
    if n < 4 then Decoded(rest)
    else
      var a, b, c, d := Find(rest[0]), Find(rest[1]), Find(rest[2]), Find(rest[3]);
      [Byte(Ungroup(a, b, 0, 0), 0), Byte(Ungroup(a, b, c, 0), 1), Byte(Ungroup(a, b, c, d), 2)]
  }

  lemma DecodableFirst(rest: string)
    requires Leading(rest) >= 4
    ensures Decoded(rest) == Decodable(rest, 4) + Decoded(rest[4..])
  {
    FullBytes(rest);
    hide Find, Byte, Ungroup, Decoded, Leading;
  }

  /** Turn the buffered letters that `rest` starts with into bytes and append them: all three of
      a full buffer, and of a shorter one, filled up with zeros that are not found, the bytes
      before the last. */
  method DecodeBuffer(digits: array<bv8>, bytes: array<bv8>, n: nat, before: seq<bv8>, ghost rest: string)
    returns (ret: seq<bv8>)
    requires digits.Length == 4 && bytes.Length == 3
    requires 1 <= n <= 4 && n <= |rest| && (if n == 4 then Leading(rest) >= 4 else Leading(rest) == n)
    requires forall k :: 0 <= k < n ==> Coded(digits[k]) == rest[k]
    modifies digits, bytes
    ensures ret == before + Decodable(rest, n)
  {
    hide Decoded, Find, Byte, Ungroup, Leading, Coded;
    if n == 4 {
      FullBytes(rest);
    } else {
      TailBytes(rest);
    }
    FindAll(digits);
    FillBytes(digits, bytes);
    assert bytes[..n - 1] == Decodable(rest, n);
    ret := AppendBytes(before, bytes, n - 1);
  }

  method AppendBytes(before: seq<bv8>, bytes: array<bv8>, n: nat) returns (ret: seq<bv8>)
    requires n <= bytes.Length
    ensures ret == before + bytes[..n]
  {
    ret := before;
    for j := 0 to n
      invariant ret == before + bytes[..j]
    {
      ret := ret + [bytes[j]];
    }
  }

  /** The letters left in the buffer when the loop ends. */
  method DecodeRest(digits: array<bv8>, bytes: array<bv8>, n: nat, before: seq<bv8>, ghost rest: string)
    returns (ret: seq<bv8>)
    requires digits.Length == 4 && bytes.Length == 3
    requires n < 4 && n <= |rest| && Leading(rest) == n
    requires forall k :: 0 <= k < n ==> Coded(digits[k]) == rest[k]
    modifies digits, bytes
    ensures ret == before + Decoded(rest)
  {
    hide Decoded, Leading, Coded;
    ret := before;
    if n > 0 {
      for j := n to 4
        invariant forall k :: 0 <= k < n ==> Coded(digits[k]) == rest[k]
        invariant forall k :: n <= k < j ==> digits[k] == 0
      {
        digits[j] := 0;
      }
      ret := DecodeBuffer(digits, bytes, n, ret, rest);
    } else {
      TailBytes(rest);
    }
  }

  method Base64Decode(s: string) returns (ret: seq<bv8>)
    ensures ret == Decoded(s)
  {
    hide *;
    ret := [];
    var i, at := 0, 0;
    var digits, bytes := new bv8[4], new bv8[3];
    ghost var rest := s;
    PadIsNoLetter();
    while at < |s| && s[at] != PAD && IsBase64(s[at])
      invariant 0 <= i <= at <= |s| && i < 4
      invariant rest == s[at - i..]
      invariant forall k :: 0 <= k < i ==> IsBase64(rest[k])
      invariant forall k :: 0 <= k < i ==> Coded(digits[k]) == rest[k]
      invariant ret + Decoded(rest) == Decoded(s)
    {
      assert s[at] == rest[i];
      digits[i] := Code(s[at]);
      CodeBack(s[at]);
      i, at := i + 1, at + 1;
      if i == 4 {
        LeadingAtLeast(rest, 4);
        DecodableFirst(rest);
        ret := DecodeBuffer(digits, bytes, 4, ret, rest);
        rest := rest[4..];
        i := 0;
      }
    }
    assert i < |rest| ==> rest[i] == s[at];
    LeadingIs(rest, i);
    ret := DecodeRest(digits, bytes, i, ret, rest);
  }
}
