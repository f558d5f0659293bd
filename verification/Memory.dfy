/** Copying of byte blocks: what memory holds after a block was copied into it, and the loop that
    copies. */
module Memory {
  import opened Bits

  /** A block of memory after `src` was copied into it at index `at`. */
  function Overwrite(all: seq<Byte>, at: nat, src: seq<Byte>): (r: seq<Byte>)
    requires at + |src| <= |all|
    ensures |r| == |all|
    ensures forall i :: 0 <= i < |all| ==> r[i] == if at <= i < at + |src| then src[i - at] else all[i]
  {
    seq(|all|, i requires 0 <= i < |all| => if at <= i < at + |src| then src[i - at] else all[i])
  }

  lemma OverwriteTwice(all: seq<Byte>, at: nat, a: seq<Byte>, mid: nat, b: seq<Byte>)
    requires mid == at + |a| && mid + |b| <= |all|
    ensures Overwrite(Overwrite(all, at, a), mid, b) == Overwrite(all, at, a + b)
  {
  }

  lemma OverwrittenPart(all: seq<Byte>, at: nat, a: seq<Byte>, end: nat)
    requires end == at + |a| <= |all|
    ensures Overwrite(all, at, a)[at..end] == a
  {
  }

  /** memcpy of `src` into `dest` from index `at` on. */
  method Copy(dest: array<Byte>, at: nat, src: seq<Byte>)
    requires at + |src| <= dest.Length
    modifies dest
    ensures dest[..] == Overwrite(old(dest[..]), at, src)
  {
    for i := 0 to |src|
      invariant dest[..] == Overwrite(old(dest[..]), at, src[..i])
    {
      dest[at + i] := src[i];
    }
    assert src[..|src|] == src;
  }
}
