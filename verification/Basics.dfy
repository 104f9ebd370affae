/** Vocabulary shared by the models: optional values, octets, C strings and slices. */
module Basics {

  /** A pointer that may be NULL. */
  datatype Option<+T> = None | Some(value: T)

  /** An `unsigned char`. */
  type byte = x: int | 0 <= x < 256

  /** The end of a C string. */
  const NUL: char := '\0'

  /** strlen. */
  function StrLen(s: seq<byte>): (n: nat)
    ensures n <= |s| && (0 in s ==> n < |s| && s[n] == 0) && 0 !in s[..n]
  {
    if s == [] || s[0] == 0 then 0 else 1 + StrLen(s[1..])
  }

  /** The bytes meant by a pointer and a length; the length 0 stands for a terminated string. */
  function Input(buff: seq<byte>, length: nat): seq<byte>
    requires length <= |buff|
  {
    if length == 0 then buff[..StrLen(buff)] else buff[..length]
  }

  lemma SliceOfFront<T>(s: seq<T>, t: seq<T>, lo: nat, hi: nat)
    requires lo <= hi <= |s|
    ensures (s + t)[lo..hi] == s[lo..hi]
  {
  }

  lemma SliceBehind<T>(s: seq<T>, t: seq<T>, lo: nat, hi: nat)
    requires lo <= hi <= |t|
    ensures (s + t)[|s| + lo..|s| + hi] == t[lo..hi]
  {
  }

  lemma SliceOfBack<T>(s: seq<T>, t: seq<T>)
    ensures (s + t)[|s|..|s| + |t|] == t
  {
  }

  /** Writing `g` behind an unchanged front appends it. */
  lemma FrontGrows<T>(a: seq<T>, b: seq<T>, pos: nat, g: seq<T>)
    requires pos <= |b| && pos + |g| <= |a| && b[..pos] == a[..pos] && forall k | 0 <= k < |g| :: a[pos + k] == g[k]
    ensures a[..pos + |g|] == b[..pos] + g
  {
  }
}
