/** Foundation's `Data` as a sequence of bytes, with the slicing operations the
    bridge applies to it. Swift's slicing is total: asking for more elements
    than there are yields all of them, and dropping more yields nothing. */
module SwiftData {

  type byte = b: int | 0 <= b < 256

  type Data = seq<byte>

  /** `prefix(k)`: the first k elements, or the whole sequence when shorter. */
  function Prefix<T>(s: seq<T>, k: nat): (r: seq<T>)
    ensures |r| == if k <= |s| then k else |s|
    ensures r <= s
  {
    if k <= |s| then s[..k] else s
  }

  /** `suffix(k)`: the last k elements, or the whole sequence when shorter. */
  function Suffix<T>(s: seq<T>, k: nat): (r: seq<T>)
    ensures |r| == if k <= |s| then k else |s|
    ensures forall i :: 0 <= i < |r| ==> r[i] == s[|s| - |r| + i]
  {
    if k <= |s| then s[|s| - k..] else s
  }

  /** `dropFirst(k)`: what is left after the first k elements; with `prefix(k)`
      in front it gives back the whole sequence. */
  function DropFirst<T>(s: seq<T>, k: nat): (r: seq<T>)
    ensures Prefix(s, k) + r == s
  {
    if k <= |s| then s[k..] else []
  }

  /** `dropLast(k)`: what is left before the last k elements; with `suffix(k)`
      behind it gives back the whole sequence. */
  function DropLast<T>(s: seq<T>, k: nat): (r: seq<T>)
    ensures r + Suffix(s, k) == s
  {
    if k <= |s| then s[..|s| - k] else []
  }
}
