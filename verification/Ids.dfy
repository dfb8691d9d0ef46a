/** Oplog ids: eight bytes read as one big-endian number.

    The store orders its keys bytewise, so the counter is usable as a log
    position only if bytewise order is numeric order and `add_one` is +1. */
module Ids {

  newtype byte = x: int | 0 <= x < 256

  const ID_LENGTH := 8
  const ID_COUNT := 0x1_0000_0000_0000_0000

  type Id = s: seq<byte> | |s| == ID_LENGTH witness [0, 0, 0, 0, 0, 0, 0, 0]

  /** The number a byte string stands for. */
  function Value(s: seq<byte>): nat {
    if s == [] then 0 else Value(s[..|s| - 1]) * 256 + s[|s| - 1] as nat
  }

  function Power(n: nat): (p: nat)
    ensures p > 0
  {
    if n == 0 then 1 else 256 * Power(n - 1)
  }

  /** The byte string of the given length that stands for v. */
  function Encode(v: nat, length: nat): (s: seq<byte>)
    ensures |s| == length
  {
    if length == 0 then [] else Encode(v / 256, length - 1) + [(v % 256) as byte]
  }

  lemma PowerOfIdLength()
    ensures Power(ID_LENGTH) == ID_COUNT
  {
    assert Power(2) == 0x1_0000;
    assert Power(4) == 0x1_0000_0000;
    assert Power(6) == 0x1_0000_0000_0000;
  }

  lemma {:induction false} ValueBound(s: seq<byte>)
    ensures Value(s) < Power(|s|)
  {
    if s != [] {
      ValueBound(s[..|s| - 1]);
    }
  }

  lemma {:induction false} ValueOfEncode(v: nat, length: nat)
    requires v < Power(length)
    ensures Value(Encode(v, length)) == v
  {
    if length > 0 {
      ValueOfEncode(v / 256, length - 1);
      var s := Encode(v, length);
      assert s[..|s| - 1] == Encode(v / 256, length - 1);
    }
  }

  lemma {:induction false} EncodeOfValue(s: seq<byte>)
    ensures Encode(Value(s), |s|) == s
  {
    if s != [] {
      EncodeOfValue(s[..|s| - 1]);
      assert Value(s) / 256 == Value(s[..|s| - 1]) && Value(s) % 256 == s[|s| - 1] as nat;
      assert s == s[..|s| - 1] + [s[|s| - 1]];
    }
  }

  /** The store's key order: compare the first differing byte, unsigned. */
  predicate Less(a: seq<byte>, b: seq<byte>) {
    b != [] && (a == [] || a[0] < b[0] || (a[0] == b[0] && Less(a[1..], b[1..])))
  }

  lemma {:induction false} ValueFromFront(s: seq<byte>)
    requires s != []
    ensures Value(s) == s[0] as nat * Power(|s| - 1) + Value(s[1..])
  {
    if |s| > 1 {
      var front := s[..|s| - 1];
      ValueFromFront(front);
      assert front[1..] == s[1..][..|s| - 2];
      assert s[1..][|s| - 2] == s[|s| - 1] && front[0] == s[0];
      TimesByte(s[0] as nat, Power(|s| - 2), Value(front[1..]));
    }
  }

  lemma TimesByte(x: nat, p: nat, v: nat)
    ensures (x * p + v) * 256 == x * (256 * p) + v * 256
  {
  }

  /** Bytewise order is numeric order. */
  lemma {:induction false} OrderIsNumeric(a: seq<byte>, b: seq<byte>)
    requires |a| == |b|
    ensures Less(a, b) <==> Value(a) < Value(b)
  {
    if a != [] {
      ValueFromFront(a);
      ValueFromFront(b);
      ValueBound(a[1..]);
      ValueBound(b[1..]);
      OrderIsNumeric(a[1..], b[1..]);
      FirstByteDecides(a[0] as nat, Value(a[1..]), b[0] as nat, Value(b[1..]), Power(|a| - 1));
    }
  }

  lemma FirstByteDecides(x: nat, u: nat, y: nat, v: nat, p: nat)
    requires u < p && v < p
    ensures x < y ==> x * p + u < y * p + v
    ensures x > y ==> x * p + u > y * p + v
  {
    if x < y {
      assert (x + 1) * p <= y * p;
    } else if x > y {
      assert (y + 1) * p <= x * p;
    }
  }

  /** The carry chain of `add_one` as a function. */
  function Increment(s: seq<byte>): (r: seq<byte>)
    ensures |r| == |s|
  {
    if s == [] then []
    else if s[|s| - 1] != 255 then s[..|s| - 1] + [s[|s| - 1] + 1]
    else Increment(s[..|s| - 1]) + [0]
  }

  lemma {:induction false} IncrementAddsOne(s: seq<byte>)
    ensures Value(Increment(s)) == if Value(s) + 1 == Power(|s|) then 0 else Value(s) + 1
  {
    if s != [] {
      var front, r := s[..|s| - 1], Increment(s);
      assert r[..|r| - 1] == if s[|s| - 1] != 255 then front else Increment(front);
      ValueBound(front);
      IncrementAddsOne(front);
    }
  }

  function ToId(n: nat): Id {
    Encode(n, ID_LENGTH)
  }

  function Next(id: Id): Id {
    Increment(id)
  }

  /** Counting up with `add_one` from the zero id yields exactly the ids 0, 1, 2, ... */
  lemma NextOfToId(n: nat)
    requires n + 1 < ID_COUNT
    ensures Next(ToId(n)) == ToId(n + 1)
  {
    PowerOfIdLength();
    ValueOfEncode(n, ID_LENGTH);
    IncrementAddsOne(ToId(n));
    EncodeOfValue(Next(ToId(n)));
  }

  /** Ids of different numbers differ, and the store sorts them by number. */
  lemma ToIdOrder(m: nat, n: nat)
    requires m < ID_COUNT && n < ID_COUNT
    ensures Less(ToId(m), ToId(n)) <==> m < n
    ensures ToId(m) == ToId(n) <==> m == n
  {
    PowerOfIdLength();
    ValueOfEncode(m, ID_LENGTH);
    ValueOfEncode(n, ID_LENGTH);
    OrderIsNumeric(ToId(m), ToId(n));
  }

  /** What `uint32_t(s[i])` is: sign extension when the platform's char is signed. */
  function WidenChar(b: byte, signedChar: bool): int {
    if signedChar && b >= 128 then 0x1_0000_0000 - 256 + b as int else b as int
  }

  method GetZero() returns (s: array<byte>)
    ensures fresh(s) && s[..] == ToId(0)
  {
    s := new byte[ID_LENGTH](_ => 0);
    PowerOfIdLength();
    ZeroBytes(s[..]);
    EncodeOfValue(s[..]);
  }

  lemma {:induction false} ZeroBytes(s: seq<byte>)
    requires forall i :: 0 <= i < |s| ==> s[i] == 0
    ensures Value(s) == 0
  {
    if s != [] {
      ZeroBytes(s[..|s| - 1]);
    }
  }

  /** What `add_one` leaves in the string and returns. With unsigned char the carry test
      never sees a 255 byte, so only the last byte moves. */
  function AddOneSpec(id: Id, signedChar: bool): (r: (Id, bool)) {
    if signedChar then (Next(id), exists i :: 0 <= i < ID_LENGTH && id[i] != 255)
    else (id[7 := if id[7] == 255 then 0 else id[7] + 1], true)
  }

  /** Where the carry chain stops: at the last byte that is not 255, or never. */
  lemma {:induction false} CarryStops(s: seq<byte>, i: int)
    requires -1 <= i < |s| && (i >= 0 ==> s[i] != 255) && forall k :: i < k < |s| ==> s[k] == 255
    ensures forall k :: 0 <= k < |s| ==>
              Increment(s)[k] == if k < i then s[k] else if k == i then s[i] + 1 else 0
  {
    var n := |s| - 1;
    if i < n {
      CarryStops(s[..n], i);
      assert forall k :: 0 <= k < n ==> Increment(s)[k] == Increment(s[..n])[k];
    }
  }

  method AddOne(s: array<byte>, signedChar: bool) returns (ok: bool)
    requires s.Length == ID_LENGTH
    modifies s
    ensures (s[..], ok) == AddOneSpec(old(s[..]), signedChar)
  {
    hide Increment;
    ghost var was := s[..];
    var i := 7;
    while i >= 0
      invariant -1 <= i <= 7
      invariant i < 7 ==> signedChar
      invariant forall k :: i < k <= 7 ==> was[k] == 255 && s[k] == 0
      invariant forall k :: 0 <= k <= i ==> s[k] == was[k]
    {
      if WidenChar(s[i], signedChar) != 0xFFFF_FFFF {
        s[i] := if s[i] == 255 then 0 else s[i] + 1;
        if signedChar {
          CarryStops(was, i);
          assert s[..] == Increment(was);
        } else {
          assert s[..] == was[7 := s[7]];
        }
        return true;
      } else {
        s[i] := 0;
        i := i - 1;
      }
    }
    CarryStops(was, -1);
    assert s[..] == Increment(was);
    return false;
  }

  lemma LastByte(id: Id, b: byte)
    ensures Value(id[7 := b]) == Value(id) - id[7] as nat + b as nat
    ensures Value(id) % 256 == id[7] as nat
  {
    assert id[7 := b][..7] == id[..7];
  }

  /** `add_one` is +1 modulo 2^64 exactly when char is signed or no carry is due. */
  lemma AddOneCounts(id: Id, signedChar: bool)
    ensures Value(AddOneSpec(id, signedChar).0) == (Value(id) + 1) % ID_COUNT <==> signedChar || id[7] != 255
  {
    PowerOfIdLength();
    ValueBound(id);
    IncrementAddsOne(id);
    hide Value, Increment, Power;
    if !signedChar {
      LastByte(id, if id[7] == 255 then 0 else id[7] + 1);
    }
  }

  /** With unsigned char no failure is ever reported, and after a last byte of 255 the id goes
      back by 255. */
  lemma UnsignedCharLosesCarry(id: Id)
    ensures AddOneSpec(id, false).1
    ensures Value(AddOneSpec(id, false).0) == if id[7] == 255 then Value(id) - 255 else Value(id) + 1
  {
    LastByte(id, AddOneSpec(id, false).0[7]);
  }

  /** It reports failure exactly on the wrap. */
  lemma AddOneReportsWrap(id: Id)
    ensures AddOneSpec(id, true).1 <==> Value(id) + 1 < ID_COUNT
  {
    PowerOfIdLength();
    AllOnesIsLargest(id);
  }

  lemma {:induction false} AllOnesIsLargest(s: seq<byte>)
    ensures Value(s) + 1 == Power(|s|) <==> forall i :: 0 <= i < |s| ==> s[i] == 255
    ensures Value(s) + 1 <= Power(|s|)
  {
    ValueBound(s);
    if s != [] {
      var front := s[..|s| - 1];
      AllOnesIsLargest(front);
      assert forall i :: 0 <= i < |front| ==> front[i] == s[i];
    }
  }
}
