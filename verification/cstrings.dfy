/** Byte-level model of the three C library string routines the bridge relies on:
    `strlen`, `strncpy` and `strncmp`.

    A C string is a `seq<byte>` holding the bytes of the object the pointer refers to. The
    string ends at the first NUL byte; a sequence without one reads as if a terminator
    followed its last byte, so every sequence denotes a string. */
module CStrings {

  /** One octet of a `char` or `uint8_t` buffer, compared as unsigned (as `strncmp` does). */
  type byte = x: int | 0 <= x < 256

  const NUL: byte := 0

  function Min(a: int, b: int): int {
    if a <= b then a else b
  }

  /** `strlen`: the number of bytes before the first NUL. */
  function StrLen(s: seq<byte>): (n: nat)
    ensures n <= |s|
    ensures forall i :: 0 <= i < n ==> s[i] != NUL
    ensures n < |s| ==> s[n] == NUL
  {
    if |s| == 0 || s[0] == NUL then 0 else 1 + StrLen(s[1..])
  }

  /** The characters of the C string `s`, without its terminator. */
  function Text(s: seq<byte>): seq<byte> {
    s[..StrLen(s)]
  }

  /** The characters a copy bounded by `n` bytes keeps of `s`. */
  function Truncated(s: seq<byte>, n: nat): seq<byte> {
    s[..Min(StrLen(s), n)]
  }

  /** The byte `s[i]`, or the implicit terminator past the end of `s`. */
  function At(s: seq<byte>, i: nat): byte {
    if i < |s| then s[i] else NUL
  }

  /** A fixed-size char array as `strncpy` leaves it: every byte from the first NUL on is NUL. */
  predicate Padded(s: seq<byte>) {
    forall i :: StrLen(s) <= i < |s| ==> s[i] == NUL
  }

  /** `strncpy(dst, src, n)`: exactly `n` bytes are written. The copy proceeds byte by byte up
      to the first NUL of `src`; once it is reached (or `src` ends), the rest is zero-filled. When
      `src` holds `n` or more characters, no terminator is written. */
  function StrNCpy(src: seq<byte>, n: nat): (dst: seq<byte>)
    ensures |dst| == n
    ensures forall i :: 0 <= i < n ==> dst[i] == (if i < StrLen(src) then src[i] else NUL)
  {
    if n == 0 then []
    else if |src| == 0 || src[0] == NUL then seq(n, _ => NUL)
    else [src[0]] + StrNCpy(src[1..], n - 1)
  }

  /** `s` followed by zeros up to `n` bytes. */
  function ZeroPad(s: seq<byte>, n: nat): seq<byte>
    requires |s| <= n
  {
    s + seq(n - |s|, _ => NUL)
  }

  /** `strncmp(a, b, n)`: compares at most `n` bytes as unsigned values and stops at the
      first difference or at a NUL the two strings share; the sign of the result orders them.
      C fixes only the sign; the model returns the difference of the first differing bytes. */
  function StrNCmp(a: seq<byte>, b: seq<byte>, n: nat): (r: int)
    ensures -255 <= r <= 255
    ensures n == 0 ==> r == 0
  {
    if n == 0 then 0
    else if At(a, 0) != At(b, 0) then At(a, 0) - At(b, 0)
    else if At(a, 0) == NUL then 0
    else StrNCmp(a[1..], b[1..], n - 1)
  }

  /** StrLen is determined by its contract: the first NUL, or the end. */
  lemma StrLenIs(s: seq<byte>, k: nat)
    requires k <= |s|
    requires forall i :: 0 <= i < k ==> s[i] != NUL
    requires k == |s| || s[k] == NUL
    ensures StrLen(s) == k
  {
  }

  /** What `strncpy` stores: the source truncated at its first NUL or at `n` bytes, followed by
      zero padding. The stored string is therefore exactly the bounded prefix of the source. */
  lemma StrNCpyText(src: seq<byte>, n: nat)
    ensures StrLen(StrNCpy(src, n)) == Min(StrLen(src), n)
    ensures Text(StrNCpy(src, n)) == Truncated(src, n)
    ensures Padded(StrNCpy(src, n))
  {
    var dst := StrNCpy(src, n);
    StrLenIs(dst, Min(StrLen(src), n));
  }

  /** `strncpy` is the bounded prefix of its source, zero-padded to the bound. */
  lemma StrNCpyIsZeroPad(src: seq<byte>, n: nat)
    ensures StrNCpy(src, n) == ZeroPad(Truncated(src, n), n)
  {
    assert forall i :: 0 <= i < n ==> StrNCpy(src, n)[i] == ZeroPad(Truncated(src, n), n)[i];
  }

  /** Copying a zero-padded array of `n` bytes with bound `n` reproduces it. */
  lemma StrNCpyOfPadded(s: seq<byte>)
    requires Padded(s)
    ensures StrNCpy(s, |s|) == s
  {
  }

  /** `strncpy` reads nothing of its source past the bound. */
  lemma StrNCpyPrefix(s: seq<byte>, n: nat)
    requires n <= |s|
    ensures StrNCpy(s[..n], n) == StrNCpy(s, n)
  {
    if StrLen(s) < n {
      StrLenIs(s[..n], StrLen(s));
    } else {
      StrLenIs(s[..n], n);
    }
  }

  /** `strncmp` reports equality exactly when the two bounded copies `strncpy` would make are
      equal: both strings agree up to a shared terminator or up to the bound. */
  lemma {:induction false} StrNCmpZeroIff(a: seq<byte>, b: seq<byte>, n: nat)
    ensures StrNCmp(a, b, n) == 0 <==> StrNCpy(a, n) == StrNCpy(b, n)
    decreases n
  {
    if n == 0 {
    } else if At(a, 0) != At(b, 0) {
      StrNCpyHead(a, n);
      StrNCpyHead(b, n);
    } else if At(a, 0) == NUL {
      StrNCpyEmpty(a, n);
      StrNCpyEmpty(b, n);
    } else {
      assert StrNCmp(a, b, n) == StrNCmp(a[1..], b[1..], n - 1);
      StrNCmpZeroIff(a[1..], b[1..], n - 1);
      StrNCpyCons(a, n);
      StrNCpyCons(b, n);
    }
  }

  /** Swapping the two strings negates the result: `strncmp` orders strings antisymmetrically. */
  lemma {:induction false} StrNCmpAntisymmetric(a: seq<byte>, b: seq<byte>, n: nat)
    ensures StrNCmp(b, a, n) == -StrNCmp(a, b, n)
    decreases n
  {
    if n > 0 && At(a, 0) == At(b, 0) && At(a, 0) != NUL {
      StrNCmpAntisymmetric(a[1..], b[1..], n - 1);
    }
  }

  /** Copying the empty string stores `n` zeros. */
  lemma StrNCpyEmpty(s: seq<byte>, n: nat)
    requires At(s, 0) == NUL
    ensures StrNCpy(s, n) == seq(n, _ => NUL)
  {
  }

  /** The first byte `strncpy` stores is the first byte of the string, or NUL past its end. */
  lemma StrNCpyHead(s: seq<byte>, n: nat)
    requires 0 < n
    ensures StrNCpy(s, n)[0] == At(s, 0)
  {
  }

  /** Before the first NUL, `strncpy` stores the first byte and copies the rest one shorter. */
  lemma StrNCpyCons(s: seq<byte>, n: nat)
    requires 0 < n && At(s, 0) != NUL
    ensures StrNCpy(s, n) == [s[0]] + StrNCpy(s[1..], n - 1)
    ensures StrNCpy(s[1..], n - 1) == StrNCpy(s, n)[1..]
  {
  }

  /** For a zero-padded array of capacity `n`, `strncmp` against a source is zero exactly when
      the array already holds what `strncpy` of that source would store. */
  lemma StoredCompare(stored: seq<byte>, src: seq<byte>)
    requires Padded(stored)
    ensures StrNCmp(stored, src, |stored|) == 0 <==> stored == StrNCpy(src, |stored|)
  {
    StrNCmpZeroIff(stored, src, |stored|);
    StrNCpyOfPadded(stored);
  }
}
