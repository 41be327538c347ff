/** Machine integers, byte order and the byte-moving loops the rewriters share.

    The proxy runs on a little-endian host: a raw read of a 16-bit field is Le16, the same
    read through ntohs is Be16. */
module Bytes {
  datatype Option<+T> = None | Some(value: T)

  type byte = b: int | 0 <= b < 256

  type u16 = v: int | 0 <= v < 65536

  type u32 = v: int | 0 <= v < 0x1_0000_0000

  const TWO_32: nat := 0x1_0000_0000
  const TWO_64: nat := 0x1_0000_0000_0000_0000

  // Conversions to the unsigned C types; Dafny's % is Euclidean, as the wrap-around is.
  function U16(x: int): u16
    decreases x < 0, if x < 0 then -x else x
  {
    if x < 0 then U16(x + 65536) else if x < 65536 then x else U16(x - 65536)
  }

  function U32(x: int): u32
    decreases x < 0, if x < 0 then -x else x
  {
    if x < 0 then U32(x + TWO_32) else if x < TWO_32 then x else U32(x - TWO_32)
  }

  /** All three are reduction modulo a power of two. */
  lemma {:induction false} WrapAround(x: int)
    ensures U16(x) == x % 65536 && U32(x) == x % 4294967296 && U64(x) == x % 18446744073709551616
  {
    U16IsModulo(x);
    U32IsModulo(x);
  }

  lemma {:induction false} U16IsModulo(x: int)
    ensures U16(x) == x % 65536
    decreases x < 0, if x < 0 then -x else x
  {
    if x < 0 {
      U16IsModulo(x + 65536);
    } else if x >= 65536 {
      U16IsModulo(x - 65536);
    }
  }

  lemma {:induction false} U32IsModulo(x: int)
    ensures U32(x) == x % 4294967296
    decreases x < 0, if x < 0 then -x else x
  {
    if x < 0 {
      U32IsModulo(x + TWO_32);
    } else if x >= TWO_32 {
      U32IsModulo(x - TWO_32);
    }
  }

  // Wrapping early or late makes no difference.
  lemma {:induction false} U32Add(x: int, y: int)
    ensures U32(U32(x) + y) == U32(x + y)
    decreases x < 0, if x < 0 then -x else x
  {
    if x < 0 {
      U32Add(x + TWO_32, y);
      U32Turn(x + y);
    } else if x >= TWO_32 {
      U32Add(x - TWO_32, y);
      U32Turn(x + y - TWO_32);
    }
  }

  lemma {:induction false} U32Turn(x: int)
    ensures U32(x + TWO_32) == U32(x)
  {
  }

  lemma {:induction false} U32Sum(x: int, y: int, a: int, b: int)
    requires U32(x) == U32(a) && U32(y) == U32(b)
    ensures U32(x + y) == U32(a + b)
  {
    U32Add(x, y);
    U32Add(a, y);
    U32Add(y, a);
    U32Add(b, a);
  }

  lemma {:induction false} U32Small(x: nat)
    requires x < TWO_32
    ensures U32(x) == x
  {
  }

  function U64(x: int): nat {
    x % 0x1_0000_0000_0000_0000
  }

  function Be16(s: seq<byte>, i: nat): u16
    requires i + 2 <= |s|
  {
    s[i] as int * 256 + s[i + 1] as int
  }

  function Le16(s: seq<byte>, i: nat): u16
    requires i + 2 <= |s|
  {
    s[i] as int + s[i + 1] as int * 256
  }

  function PutBe16(v: u16): (r: seq<byte>)
    ensures |r| == 2 && Be16(r, 0) == v
  {
    [v / 256, v % 256]
  }

  lemma {:induction false} PutOfBe16(s: seq<byte>, i: nat)
    requires i + 2 <= |s|
    ensures PutBe16(Be16(s, i)) == s[i..i + 2]
  {
  }

  lemma {:induction false} EightsAdd(a: nat, b: nat)
    requires a % 8 == 0 && b % 8 == 0
    ensures (a + b) % 8 == 0
  {
  }

  function Zeros(n: nat): (r: seq<byte>)
    ensures |r| == n
  {
    seq(n, _ => 0)
  }

  // The bytes that bring n up to a multiple of 8.
  function Pad8(n: nat): nat {
    if n % 8 == 0 then 0 else 8 - n % 8
  }

  function Round8(n: nat): (r: nat)
    ensures r % 8 == 0 && n <= r < n + 8
  {
    n + Pad8(n)
  }

  lemma {:induction false} U64Small(x: nat)
    requires x < TWO_64
    ensures U64(x) == x
  {
  }

  lemma {:induction false} Assoc<T>(a: seq<T>, b: seq<T>, c: seq<T>)
    ensures a + (b + c) == (a + b) + c
  {
  }

  // s with the bytes from position at replaced by t.
  function Overlay(s: seq<byte>, at: nat, t: seq<byte>): (r: seq<byte>)
    requires at + |t| <= |s|
    ensures |r| == |s|
  {
    s[..at] + t + s[at + |t|..]
  }

  lemma {:induction false} OverlayAt(s: seq<byte>, at: nat, t: seq<byte>, k: nat)
    requires at + |t| <= |s| && k < |s|
    ensures Overlay(s, at, t)[k] == if at <= k < at + |t| then t[k - at] else s[k]
  {
  }

  // A slice of an overlay: beside the new bytes, or within them.
  lemma {:induction false} OverlaySlice(s: seq<byte>, at: nat, t: seq<byte>, a: nat, b: nat)
    requires at + |t| <= |s| && a <= b <= |s|
    ensures b <= at || at + |t| <= a ==> Overlay(s, at, t)[a..b] == s[a..b]
    ensures at <= a && b <= at + |t| ==> Overlay(s, at, t)[a..b] == t[a - at..b - at]
  {
    hide Overlay;
    forall k | a <= k < b
      ensures Overlay(s, at, t)[k] == if at <= k < at + |t| then t[k - at] else s[k]
    {
      OverlayAt(s, at, t, k);
    }
  }

  // All of an overlay behind the new bytes.
  lemma {:induction false} OverlayTail(s: seq<byte>, at: nat, t: seq<byte>, a: nat)
    requires at + |t| <= a <= |s|
    ensures Overlay(s, at, t)[a..] == s[a..]
  {
    hide Overlay;
    var o := Overlay(s, at, t);
    forall k | a <= k < |s|
      ensures o[k] == s[k]
    {
      OverlayAt(s, at, t, k);
    }
    assert forall k | 0 <= k < |s| - a :: o[a..][k] == o[a + k] && s[a..][k] == s[a + k];
  }

  lemma {:induction false} MiddleOf(msg: seq<byte>, at: nat, len: nat, x: seq<byte>, b: seq<byte>, y: seq<byte>)
    requires at + len <= |msg| && msg[at..at + len] == x + b + y
    ensures at + |x| + |b| <= |msg| && msg[at + |x|..at + |x| + |b|] == b
  {
    var s := msg[at..at + len];
    assert |s| == |x| + |b| + |y|;
    forall k | 0 <= k < |b|
      ensures msg[at + |x| + k] == b[k]
    {
      assert s[|x| + k] == b[k];
    }
  }

  lemma {:induction false} JoinSlices(s: seq<byte>, a: nat, b: nat, c: nat)
    requires a <= b <= c <= |s|
    ensures s[a..c] == s[a..b] + s[b..c]
    ensures a == 0 ==> s[..c] == s[..b] + s[b..c]
  {
  }

  // An overlay within a prefix, and over the middle of three parts.
  lemma {:induction false} OverlayPrefix(s: seq<byte>, at: nat, t: seq<byte>, n: nat)
    requires at + |t| <= n <= |s|
    ensures Overlay(s, at, t)[..n] == Overlay(s[..n], at, t)
  {
  }

  lemma {:induction false} OverlayMiddle(a: seq<byte>, b: seq<byte>, c: seq<byte>, t: seq<byte>)
    requires |t| == |b|
    ensures Overlay(a + b + c, |a|, t) == a + t + c
  {
  }

  lemma {:induction false} TwoParts(s: seq<byte>, at: nat, x: seq<byte>, y: seq<byte>)
    requires at + |x| + |y| <= |s| && s[at..at + |x| + |y|] == x + y
    ensures s[at..at + |x|] == x && s[at + |x|..at + |x| + |y|] == y
  {
    var b := s[at..at + |x| + |y|];
    assert s[at..at + |x|] == b[..|x|] && s[at + |x|..at + |x| + |y|] == b[|x|..];
  }

  // Sequences that agree from some point on agree from any later one.
  lemma {:induction false} SameBehind(s: seq<byte>, was: seq<byte>, end: nat, n: nat)
    requires end <= n <= |s| == |was| && s[end..] == was[end..]
    ensures s[n..] == was[n..] && s[end..n] == was[end..n]
  {
    assert s[n..] == s[end..][n - end..] && was[n..] == was[end..][n - end..];
    assert s[end..n] == s[end..][..n - end] && was[end..n] == was[end..][..n - end];
  }

  // ntohs of the two bytes at position i, and their raw value.
  function LoadBe16(a: array<byte>, i: nat): (v: u16)
    requires i + 2 <= a.Length
    reads a
    ensures v == Be16(a[..], i)
  {
    a[i] as int * 256 + a[i + 1] as int
  }

  function LoadLe16(a: array<byte>, i: nat): (v: u16)
    requires i + 2 <= a.Length
    reads a
    ensures v == Le16(a[..], i)
  {
    a[i] as int + a[i + 1] as int * 256
  }

  // Two adjacent overlays are one.
  lemma {:induction false} OverlayJoin(s: seq<byte>, at: nat, t: seq<byte>, u: seq<byte>)
    requires at + |t| + |u| <= |s|
    ensures Overlay(Overlay(s, at, t), at + |t|, u) == Overlay(s, at, t + u)
  {
  }

  method StoreBe16(a: array<byte>, at: nat, v: u16)
    requires at + 2 <= a.Length
    modifies a
    ensures a[..] == Overlay(old(a[..]), at, PutBe16(v))
  {
    a[at] := v / 256;
    a[at + 1] := v % 256;
  }

  method FillZero(a: array<byte>, n: nat)
    requires n <= a.Length
    modifies a
    ensures a[..] == Overlay(old(a[..]), 0, Zeros(n))
  {
    for i := 0 to n
      invariant a[..i] == Zeros(i) && a[i..] == old(a[i..])
    {
      a[i] := 0;
    }
  }

  /** Copies n bytes of src, namely bytes, to dst one at a time, for two different buffers. */
  method CopyBytes(dst: array<byte>, at: nat, src: array<byte>, from: nat, n: nat, ghost bytes: seq<byte>)
    requires dst != src && at + n <= dst.Length && from + n <= src.Length
    requires src[..][from..from + n] == bytes
    modifies dst
    ensures dst[..] == Overlay(old(dst[..]), at, bytes)
  {
    for i := 0 to n
      invariant dst[..at] == old(dst[..at])
      invariant dst[at..at + i] == bytes[..i]
      invariant dst[at + i..] == old(dst[at + i..])
    {
      assert src[from + i] == bytes[i];
      dst[at + i] := src[from + i];
    }
    assert dst[..] == dst[..at] + dst[at..at + n] + dst[at + n..];
  }

  /** The same loop inside one buffer, sliding bytes towards its start. Source and target may
      overlap: a byte is read before the loop can reach it. */
  method SlideLeft(a: array<byte>, at: nat, from: nat, n: nat, ghost bytes: seq<byte>)
    requires at <= from && from + n <= a.Length
    requires a[..][from..from + n] == bytes
    modifies a
    ensures a[..] == Overlay(old(a[..]), at, bytes)
  {
    ghost var was := a[..];
    for i := 0 to n
      invariant forall k | 0 <= k < a.Length :: a[k] == if at <= k < at + i then bytes[k - at] else was[k]
    {
      assert was[from + i] == bytes[i];
      a[at + i] := a[from + i];
    }
    forall k | 0 <= k < a.Length
      ensures a[k] == Overlay(was, at, bytes)[k]
    {
      OverlayAt(was, at, bytes, k);
    }
  }
}
