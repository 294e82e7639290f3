/** Bytes, C strings and the small wrappers shared by the modules of this project. */
module Bytes {

  type Byte = x: int | 0 <= x < 256

  datatype Option<+T> = None | Some(value: T)

  /** The macro ngx_tolower: setting bit 0x20 of an upper-case letter adds 32. */
  function ToLower(c: Byte): Byte {
    if 65 <= c <= 90 then c + 32 else c
  }

  /** The letters, one by one, and no other byte. */
  lemma ToLowerIs(c: Byte)
    ensures var upper, lower := "ABCDEFGHIJKLMNOPQRSTUVWXYZ", "abcdefghijklmnopqrstuvwxyz";
            && |lower| == |upper|
            && (forall k :: 0 <= k < |upper| && upper[k] as int == c ==> ToLower(c) == lower[k] as int)
            && ((forall k :: 0 <= k < |upper| ==> upper[k] as int != c) ==> ToLower(c) == c)
  {
    var upper, lower := "ABCDEFGHIJKLMNOPQRSTUVWXYZ", "abcdefghijklmnopqrstuvwxyz";
    assert forall k :: 0 <= k < |upper| ==> upper[k] as int == 65 + k && lower[k] as int == 97 + k;
    if 65 <= c <= 90 {
      assert upper[c - 65] as int == c;
    }
  }

  function Lower(s: seq<Byte>): (r: seq<Byte>)
    ensures |r| == |s|
    ensures forall i :: 0 <= i < |s| ==> r[i] == ToLower(s[i])
  {
    seq(|s|, i requires 0 <= i < |s| => ToLower(s[i]))
  }

  const DOT: Byte := 46

  /** The byte a C program reads at index `i` of a NUL-terminated string. */
  function CharAt(s: seq<Byte>, i: nat): Byte {
    if i < |s| then s[i] else 0
  }

  /** strncmp(a, b, n) == 0 for NUL-terminated strings. */
  predicate StrnEqual(a: seq<Byte>, b: seq<Byte>, n: nat) {
    n == 0 ||
    (CharAt(a, 0) == CharAt(b, 0) &&
     (a == [] || b == [] || a[0] == 0 || StrnEqual(a[1..], b[1..], n - 1)))
  }

  ghost predicate NoNul(s: seq<Byte>) {
    forall i :: 0 <= i < |s| ==> s[i] != 0
  }

  /** Without NUL bytes strncmp compares prefixes. */
  lemma {:induction false} StrnEqualIsPrefix(a: seq<Byte>, b: seq<Byte>, n: nat)
    requires NoNul(a) && n <= |a|
    ensures StrnEqual(a, b, n) <==> n <= |b| && a[..n] == b[..n]
  {
    if n > 0 && b != [] && a[0] == b[0] {
      StrnEqualIsPrefix(a[1..], b[1..], n - 1);
      assert a[..n] == [a[0]] + a[1..][..n - 1];
      if n <= |b| {
        assert b[..n] == [b[0]] + b[1..][..n - 1];
        assert a[1..][..n - 1] == a[..n][1..] && b[1..][..n - 1] == b[..n][1..];
      }
    } else if n > 0 && b != [] && n <= |b| {
      assert a[..n][0] == a[0] && b[..n][0] == b[0];
    }
  }

  /** The bytes before the first NUL. */
  function CString(s: seq<Byte>): seq<Byte> {
    if s == [] || s[0] == 0 then [] else [s[0]] + CString(s[1..])
  }

  lemma {:induction false} StrnEqualIsCString(a: seq<Byte>, b: seq<Byte>)
    requires |a| == |b|
    ensures StrnEqual(a, b, |a|) <==> CString(a) == CString(b)
    decreases |a|
  {
    if a != [] {
      StrnEqualIsCString(a[1..], b[1..]);
      if a[0] != 0 && b[0] != 0 {
        assert CString(a)[1..] == CString(a[1..]) && CString(b)[1..] == CString(b[1..]);
      }
    }
  }

  lemma {:induction false} CStringWhole(a: seq<Byte>, b: seq<Byte>)
    requires NoNul(a) && |a| == |b| && CString(a) == CString(b)
    ensures a == b
  {
    if a != [] {
      assert b[0] != 0;
      assert CString(a)[0] == a[0] && CString(b)[0] == b[0];
      assert CString(a)[1..] == CString(a[1..]) && CString(b)[1..] == CString(b[1..]);
      CStringWhole(a[1..], b[1..]);
      assert a == [a[0]] + a[1..] && b == [b[0]] + b[1..];
    }
  }

  function Least(a: int, b: int): int {
    if a < b then a else b
  }

  /** The parts of a whole, put together. */
  function Concat<T>(chunks: seq<seq<T>>): seq<T> {
    if chunks == [] then [] else Concat(chunks[..|chunks| - 1]) + chunks[|chunks| - 1]
  }
}
