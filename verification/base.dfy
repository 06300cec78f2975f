/** Bytes, fixed-width integers, node identifiers and the big-endian encodings that
    every wire format of the overlay uses. */
module Base {
  newtype byte = x: int | 0 <= x < 256

  type Bytes = seq<byte>

  type u16 = x: int | 0 <= x < 0x1_0000
  type u32 = x: int | 0 <= x < 0x1_0000_0000
  type u64 = x: int | 0 <= x < 0x1_0000_0000_0000_0000

  const TWO_32 := 0x1_0000_0000
  const TWO_64 := 0x1_0000_0000_0000_0000

  datatype Option<+T> = None | Some(value: T)

  type Raw16 = b: Bytes | |b| == 16 witness seq(16, _ => 0)

  /** A node is named by 16 bytes, the same on the wire and in memory. */
  datatype NodeID = NodeID(raw: Raw16)

  /** The value added by a Go conversion to a 32-bit unsigned integer wraps. */
  function AddU32(x: u32, y: nat): u32 {
    (x + y) % TWO_32
  }

  // ---- Big-endian integers ----

  function PutU16(x: u16): (b: Bytes)
    ensures |b| == 2
  {
    [(x / 0x100) as byte, (x % 0x100) as byte]
  }

  function GetU16(b: Bytes): u16
    requires |b| >= 2
  {
    b[0] as int * 0x100 + b[1] as int
  }

  function PutU32(x: u32): (b: Bytes)
    ensures |b| == 4
  {
    PutU16(x / 0x1_0000) + PutU16(x % 0x1_0000)
  }

  function GetU32(b: Bytes): u32
    requires |b| >= 4
  {
    GetU16(b) * 0x1_0000 + GetU16(b[2..])
  }

  function PutU64(x: u64): (b: Bytes)
    ensures |b| == 8
  {
    PutU32(x / 0x1_0000_0000) + PutU32(x % 0x1_0000_0000)
  }

  function GetU64(b: Bytes): u64
    requires |b| >= 8
  {
    GetU32(b) * 0x1_0000_0000 + GetU32(b[4..])
  }

  lemma U16RoundTrip(x: u16, rest: Bytes)
    ensures GetU16(PutU16(x) + rest) == x
  {
  }

  lemma U32RoundTrip(x: u32, rest: Bytes)
    ensures GetU32(PutU32(x) + rest) == x
  {
    var hi, lo := PutU16(x / 0x1_0000), PutU16(x % 0x1_0000);
    assert PutU32(x) + rest == hi + (lo + rest);
    assert (hi + (lo + rest))[2..] == lo + rest;
    U16RoundTrip(x / 0x1_0000, lo + rest);
    U16RoundTrip(x % 0x1_0000, rest);
  }

  lemma U64RoundTrip(x: u64, rest: Bytes)
    ensures GetU64(PutU64(x) + rest) == x
  {
    var hi, lo := PutU32(x / 0x1_0000_0000), PutU32(x % 0x1_0000_0000);
    assert PutU64(x) + rest == hi + (lo + rest);
    assert (hi + (lo + rest))[4..] == lo + rest;
    U32RoundTrip(x / 0x1_0000_0000, lo + rest);
    U32RoundTrip(x % 0x1_0000_0000, rest);
  }

  lemma GetU16Front(b: Bytes)
    requires |b| >= 2
    ensures GetU16(b) == GetU16(b[..2])
  {
  }

  lemma GetU32Front(b: Bytes)
    requires |b| >= 4
    ensures GetU32(b) == GetU32(b[..4])
  {
    assert b[..4][2..] == b[2..][..2];
    GetU16Front(b);
    GetU16Front(b[2..]);
    GetU16Front(b[..4]);
  }

  /** The other direction: what was read is what those bytes encode. */
  lemma U16Parsed(b: Bytes)
    requires |b| >= 2
    ensures PutU16(GetU16(b)) == b[..2]
  {
  }

  lemma U32Parsed(b: Bytes)
    requires |b| >= 4
    ensures PutU32(GetU32(b)) == b[..4]
  {
    var hi, lo := GetU16(b), GetU16(b[2..]);
    assert GetU32(b) / 0x1_0000 == hi && GetU32(b) % 0x1_0000 == lo;
    U16Parsed(b);
    U16Parsed(b[2..]);
    assert b[..4] == b[..2] + b[2..][..2];
  }

  lemma U64Parsed(b: Bytes)
    requires |b| >= 8
    ensures PutU64(GetU64(b)) == b[..8]
  {
    var hi, lo := GetU32(b), GetU32(b[4..]);
    assert GetU64(b) / 0x1_0000_0000 == hi && GetU64(b) % 0x1_0000_0000 == lo;
    U32Parsed(b);
    U32Parsed(b[4..]);
    assert b[..8] == b[..4] + b[4..][..4];
  }

  // ---- What the encodings mean ----

  /** The number that bytes stand for, the most significant byte first. */
  function Number(b: Bytes): nat {
    if b == [] then 0 else 0x100 * Number(b[..|b| - 1]) + b[|b| - 1] as int
  }

  lemma NumberMore(a: Bytes, x: u16)
    ensures Number(a + PutU16(x)) == 0x1_0000 * Number(a) + x
  {
    var b := a + PutU16(x);
    assert b[..|b| - 1] == a + [PutU16(x)[0]];
    assert b[..|b| - 1][..|a|] == a;
  }

  /** Bytes of one length compare from the left as the numbers they stand for. */
  ghost predicate Before(a: Bytes, b: Bytes)
    requires |a| == |b|
  {
    exists i :: 0 <= i < |a| && a[..i] == b[..i] && a[i] < b[i]
  }

  lemma {:induction false} NumbersCompare(a: Bytes, b: Bytes)
    requires |a| == |b|
    ensures Number(a) < Number(b) <==> Before(a, b)
    ensures Number(a) == Number(b) <==> a == b
  {
    if a != [] {
      var last := |a| - 1;
      var (x, y) := (a[..last], b[..last]);
      NumbersCompare(x, y);
      FirstDifference(a, b);
      assert a == b <==> x == y && a[last] == b[last] by {
        assert a == x + [a[last]] && b == y + [b[last]];
      }
    }
  }

  lemma FirstDifference(a: Bytes, b: Bytes)
    requires |a| == |b| > 0
    ensures var last := |a| - 1;
            Before(a, b) <==> Before(a[..last], b[..last]) || (a[..last] == b[..last] && a[last] < b[last])
  {
    var last := |a| - 1;
    forall i | 0 <= i < last ensures a[..last][..i] == a[..i] && b[..last][..i] == b[..i] {}
    if i :| 0 <= i < |a| && a[..i] == b[..i] && a[i] < b[i] {
      assert i < last ==> a[..last][..i] == b[..last][..i] && a[..last][i] < b[..last][i];
    }
    if i :| 0 <= i < last && a[..last][..i] == b[..last][..i] && a[..last][i] < b[..last][i] {
      assert a[..i] == b[..i] && a[i] < b[i];
    }
  }

  /** The encodings are big-endian: what is written stands for the number, and so does what
      is read. */
  lemma BigEndian16(x: u16, b: Bytes)
    requires |b| >= 2
    ensures Number(PutU16(x)) == x && GetU16(b) == Number(b[..2])
  {
    NumberMore([], x);
    assert [] + PutU16(x) == PutU16(x);
    var y := GetU16(b);
    NumberMore([], y);
    assert [] + PutU16(y) == PutU16(y);
    U16Parsed(b);
  }

  lemma Written32(x: u32)
    ensures Number(PutU32(x)) == x
  {
    BigEndian16(x / 0x1_0000, [0, 0]);
    NumberMore(PutU16(x / 0x1_0000), x % 0x1_0000);
  }

  lemma BigEndian32(x: u32, b: Bytes)
    requires |b| >= 4
    ensures Number(PutU32(x)) == x && GetU32(b) == Number(b[..4])
  {
    Written32(x);
    Written32(GetU32(b));
    U32Parsed(b);
  }

  lemma Written64(x: u64)
    ensures Number(PutU64(x)) == x
  {
    var (hi, lo) := (x / 0x1_0000_0000, x % 0x1_0000_0000);
    var (m, l) := (PutU16(lo / 0x1_0000), PutU16(lo % 0x1_0000));
    Written32(hi);
    NumberMore(PutU32(hi), lo / 0x1_0000);
    NumberMore(PutU32(hi) + m, lo % 0x1_0000);
    assert PutU64(x) == PutU32(hi) + m + l;
  }

  lemma BigEndian64(x: u64, b: Bytes)
    requires |b| >= 8
    ensures Number(PutU64(x)) == x && GetU64(b) == Number(b[..8])
  {
    Written64(x);
    Written64(GetU64(b));
    U64Parsed(b);
  }

  /** So encoded numbers compare as their bytes do. */
  lemma EncodingsCompare(x: u64, y: u64)
    ensures Before(PutU64(x), PutU64(y)) <==> x < y
    ensures x < 0x1_0000_0000 && y < 0x1_0000_0000 ==> (Before(PutU32(x), PutU32(y)) <==> x < y)
    ensures x < 0x1_0000 && y < 0x1_0000 ==> (Before(PutU16(x), PutU16(y)) <==> x < y)
  {
    Written64(x);
    Written64(y);
    NumbersCompare(PutU64(x), PutU64(y));
    if x < 0x1_0000_0000 && y < 0x1_0000_0000 {
      Written32(x);
      Written32(y);
      NumbersCompare(PutU32(x), PutU32(y));
    }
    if x < 0x1_0000 && y < 0x1_0000 {
      BigEndian16(x, [0, 0]);
      BigEndian16(y, [0, 0]);
      NumbersCompare(PutU16(x), PutU16(y));
    }
  }

  /** Go's copy into a buffer at an offset; what lies before the offset stays. */
  method CopyAt(buf: array<byte>, off: nat, b: Bytes)
    requires off + |b| <= buf.Length
    modifies buf
    ensures buf[..off + |b|] == old(buf[..off]) + b
  {
    forall i | 0 <= i < |b| {
      buf[off + i] := b[i];
    }
  }

  /** What a decoder does with its input: a value, an error, or an index out of range. */
  datatype Decoded<+T> = Ok(value: T) | Err | Crash

  // ---- Sequences ----

  ghost predicate NoDup<T>(s: seq<T>) {
    forall i, j :: 0 <= i < j < |s| ==> s[i] != s[j]
  }

  /** A list of distinct elements is no longer than any set that holds them. */
  lemma {:induction false} NoDupBound<T>(s: seq<T>, bound: set<T>)
    requires NoDup(s)
    requires forall x :: x in s ==> x in bound
    ensures |s| <= |bound|
  {
    if s != [] {
      var last := |s| - 1;
      forall x | x in s[..last] ensures x in bound - {s[last]} {
        var i :| 0 <= i < last && s[i] == x;
        assert s[last] in s;
      }
      NoDupBound(s[..last], bound - {s[last]});
    }
  }

  function Filter<T>(s: seq<T>, keep: T -> bool): (r: seq<T>) {
    if s == [] then []
    else if keep(s[0]) then [s[0]] + Filter(s[1..], keep)
    else Filter(s[1..], keep)
  }

  lemma {:induction false} FilterAppend<T>(s: seq<T>, x: T, keep: T -> bool)
    ensures Filter(s + [x], keep) == Filter(s, keep) + if keep(x) then [x] else []
  {
    if s == [] {
      assert s + [x] == [x];
    } else {
      assert (s + [x])[1..] == s[1..] + [x];
      FilterAppend(s[1..], x, keep);
    }
  }

  lemma {:induction false} FilterMembers<T>(s: seq<T>, keep: T -> bool)
    ensures forall x :: x in Filter(s, keep) <==> x in s && keep(x)
    ensures |Filter(s, keep)| <= |s|
  {
    if s != [] {
      FilterMembers(s[1..], keep);
    }
  }
}
