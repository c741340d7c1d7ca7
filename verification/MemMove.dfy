/** memmove (string.c): a copy that is right for every overlap. */
module MemMove {

  /** `before` with `n` bytes from `src` on copied to `dest`, all taken from `before`. */
  ghost predicate Copied(before: seq<nat>, after: seq<nat>, dest: nat, src: nat, n: nat) {
    && |after| == |before| && dest + n <= |before| && src + n <= |before|
    && after[dest..dest + n] == before[src..src + n]
    && after[..dest] == before[..dest] && after[dest + n..] == before[dest + n..]
  }

  /** Bytes still to be read while `k` of `n` have been copied upwards are untouched as long as the
    destination lies below the source, and the same downwards from above. */
  method MemMove(mem: array<nat>, dest: nat, src: nat, size: nat) returns (r: nat)
    requires dest + size <= mem.Length && src + size <= mem.Length
    modifies mem
    ensures r == dest && Copied(old(mem[..]), mem[..], dest, src, size)
  {
    ghost var before := mem[..];
    var d, s, n := dest, src, size;
    if d < s {
      while n > 0
        invariant 0 <= n <= size && d == dest + size - n && s == src + size - n
        invariant forall k: nat :: dest <= k < d ==> mem[k] == before[k - dest + src]
        invariant forall k: nat :: k < mem.Length && !(dest <= k < d) ==> mem[k] == before[k]
      {
        mem[d] := mem[s];
        d, s, n := d + 1, s + 1, n - 1;
      }
    } else if d > s {
      d, s := d + size, s + size;
      while n > 0
        invariant 0 <= n <= size && d == dest + n && s == src + n
        invariant forall k: nat :: d <= k < dest + size ==> mem[k] == before[k - dest + src]
        invariant forall k: nat :: k < mem.Length && !(d <= k < dest + size) ==> mem[k] == before[k]
      {
        d, s, n := d - 1, s - 1, n - 1;
        mem[d] := mem[s];
      }
    }
    return dest;
  }

  /** The result is determined: there is one way to have copied. */
  lemma CopiedUnique(before: seq<nat>, a: seq<nat>, b: seq<nat>, dest: nat, src: nat, n: nat)
    requires Copied(before, a, dest, src, n) && Copied(before, b, dest, src, n)
    ensures a == b
  {
    assert a == a[..dest] + a[dest..dest + n] + a[dest + n..];
    assert b == b[..dest] + b[dest..dest + n] + b[dest + n..];
  }
}
