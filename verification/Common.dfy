/** Small vocabulary shared by every part of the model: results, Python slices and joined pieces. */
module Common {

  datatype Option<+T> = None | Some(value: T)

  datatype Result<+T, +E> = Ok(value: T) | Failed(reason: E)

  function Min(a: int, b: int): int {
    if a <= b then a else b
  }

  function Max(a: int, b: int): int {
    if a >= b then a else b
  }

  /** The elements of `s` at positions in [low, high), wherever the two bounds lie. */
  function Slice<T>(s: seq<T>, low: int, high: int): seq<T> {
    var first, last := Max(low, 0), Min(high, |s|);
    if first < last then s[first..last] else []
  }

  /** The last `n` elements of `s`, or all of it. */
  function Tail<T>(s: seq<T>, n: nat): seq<T> {
    if |s| <= n then s else s[|s| - n..]
  }

  /** The first `n` elements of `s`, or all of it. */
  function Head<T>(s: seq<T>, n: nat): seq<T> {
    if |s| <= n then s else s[..n]
  }

  /** The pieces of `parts` joined in order. */
  function Concat<T>(parts: seq<seq<T>>): seq<T> {
    if parts == [] then [] else Concat(parts[..|parts| - 1]) + parts[|parts| - 1]
  }

  lemma {:induction false} ConcatAppend<T>(a: seq<seq<T>>, b: seq<seq<T>>)
    ensures Concat(a + b) == Concat(a) + Concat(b)
  {
    if b == [] {
      assert a + b == a;
    } else {
      assert (a + b)[..|a + b| - 1] == a + b[..|b| - 1];
      ConcatAppend(a, b[..|b| - 1]);
    }
  }

  lemma Assoc<T>(a: seq<T>, b: seq<T>, c: seq<T>)
    ensures a + (b + c) == a + b + c
  {
  }

  lemma ConcatOne<T>(part: seq<T>)
    ensures Concat([part]) == part
  {
    assert [part][..0] == [];
  }

  lemma InnerRange<T>(s: seq<T>, a: nat, b: nat, low: nat, high: nat)
    requires a <= low <= high <= b <= |s|
    ensures s[a..b][low - a..high - a] == s[low..high]
  {
    var inner, whole := s[a..b][low - a..high - a], s[low..high];
    assert forall k :: 0 <= k < |inner| ==> inner[k] == s[a..b][low - a + k] == s[low + k] == whole[k];
  }

  lemma SliceInside<T>(s: seq<T>, low: nat, high: nat)
    requires low <= high <= |s|
    ensures Slice(s, low, high) == s[low..high]
  {
    if low == high {
      assert s[low..high] == [];
    }
  }

  lemma SliceAt<T>(s: seq<T>, low: nat, high: int, k: nat)
    requires k < |Slice(s, low, high)|
    ensures low + k < |s| && Slice(s, low, high)[k] == s[low + k]
  {
  }

  lemma SliceAlike<T>(s: seq<T>, t: seq<T>, low: int, high: int)
    requires |s| == |t|
    requires forall p :: 0 <= p < |s| && low <= p < high ==> s[p] == t[p]
    ensures Slice(s, low, high) == Slice(t, low, high)
  {
  }

  lemma SliceLength<T>(s: seq<T>, low: int, high: int)
    ensures |Slice(s, low, high)| == Max(0, Min(high, |s|) - Max(low, 0))
  {
  }

  lemma SliceConcat<T>(a: seq<T>, b: seq<T>, low: int, high: int)
    ensures Slice(a + b, low, high) == Slice(a, low, high) + Slice(b, low - |a|, high - |a|)
  {
  }

  lemma SliceConcat3<T>(a: seq<T>, b: seq<T>, c: seq<T>, low: int, high: int)
    ensures Slice(a + (b + c), low, high)
      == Slice(a, low, high) + Slice(b, low - |a|, high - |a|) + Slice(c, low - |a| - |b|, high - |a| - |b|)
  {
    hide Slice;
    SliceConcat(a, b + c, low, high);
    SliceConcat(b, c, low - |a|, high - |a|);
  }

  /** Two adjacent slices are one slice. */
  lemma SliceAdjacent<T>(s: seq<T>, low: int, middle: int, high: int)
    requires low <= middle <= high
    ensures Slice(s, low, high) == Slice(s, low, middle) + Slice(s, middle, high)
  {
  }

  lemma TailOfLonger<T>(x: seq<T>, s: seq<T>, n: nat)
    requires |s| >= n || x == []
    ensures Tail(x + s, n) == Tail(s, n)
  {
    if x == [] {
      assert x + s == s;
    }
  }

  lemma HeadOfLonger<T>(s: seq<T>, y: seq<T>, n: nat)
    requires |s| >= n || y == []
    ensures Head(s + y, n) == Head(s, n)
  {
    if y == [] {
      assert s + y == s;
    }
  }
}
