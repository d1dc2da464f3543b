/** C memory operations on character buffers. */
module Memory {

  ghost function Moved(t: string, dst: nat, src: nat, n: nat): (r: string)
    requires dst + n <= |t| && src + n <= |t|
    ensures |r| == |t|
  {
    t[..dst] + t[src..src + n] + t[dst + n..]
  }

  ghost function Written(t: string, dst: nat, s: string): (r: string)
    requires dst + |s| <= |t|
    ensures |r| == |t|
  {
    t[..dst] + s + t[dst + |s|..]
  }

  /** `memmove`: the ranges may overlap. */
  method MemMove(buf: array<char>, dst: nat, src: nat, n: nat)
    requires dst + n <= buf.Length && src + n <= buf.Length
    modifies buf
    ensures buf[..] == Moved(old(buf[..]), dst, src, n)
  {
    forall i | 0 <= i < n { buf[dst + i] := buf[src + i]; }
  }

  /** `memcpy` of a string that lies elsewhere. */
  method MemCpy(buf: array<char>, dst: nat, s: string)
    requires dst + |s| <= buf.Length
    modifies buf
    ensures buf[..] == Written(old(buf[..]), dst, s)
  {
    forall i | 0 <= i < |s| { buf[dst + i] := s[i]; }
  }

  /** `realloc`: a buffer of the new size that starts with the first n characters. */
  method Realloc(buf: array<char>, n: nat, size: nat) returns (r: array<char>)
    requires n <= buf.Length && n <= size
    ensures fresh(r) && r.Length == size && r[..n] == buf[..n]
    ensures forall i :: 0 <= i < n ==> r[i] == buf[i]
  {
    r := new char[size];
    forall i | 0 <= i < n { r[i] := buf[i]; }
  }

  /** Writing s over the start of g. */
  lemma Overwrite(a: string, g: string, r: string, s: string)
    requires |s| <= |g|
    ensures Written(a + g + r, |a|, s) == (a + s) + g[|s|..] + r
  {
  }

  lemma SubSlice(b: array<char>, i: nat, j: nat, k: nat, l: nat)
    requires i <= j <= b.Length && k <= l <= j - i
    ensures b[i..j][k..l] == b[i + k..i + l]
  {
    var s, t := b[i..j][k..l], b[i + k..i + l];
    forall x | 0 <= x < l - k ensures s[x] == t[x] { assert s[x] == b[i..j][k + x] == b[i + k + x]; }
  }

  lemma PrefixSlice(b: array<char>, j: nat, k: nat, l: nat)
    requires k <= l <= j <= b.Length
    ensures b[..j][k..l] == b[k..l]
  {
    var s, t := b[..j][k..l], b[k..l];
    forall x | 0 <= x < l - k ensures s[x] == t[x] { assert s[x] == b[..j][k + x] == b[k + x]; }
  }

  /** A prefix of the buffer that is made of two parts. */
  lemma TwoParts(b: array<char>, i: nat, j: nat, x: string, y: string)
    requires i <= j <= b.Length && b[..j] == x + y && |x| == i
    ensures b[..i] == x && b[i..j] == y
  {
    var s, t := b[..i], b[i..j];
    forall k | 0 <= k < i ensures s[k] == x[k] { assert s[k] == b[..j][k]; }
    forall k | 0 <= k < j - i ensures t[k] == y[k] { assert t[k] == b[..j][i + k]; }
  }

  lemma SplitSlice(b: array<char>, i: nat, j: nat, k: nat)
    requires i <= j <= k <= b.Length
    ensures b[i..k] == b[i..j] + b[j..k]
  {
  }
}
