/** The dwell window: Python's `deque(maxlen=n)`, appended to one sample at
    a time. Once it holds `n` items, every append drops the oldest one. */
module DwellWindow {

  /** The last `n` elements of `s` (all of `s` when it is shorter), in order. */
  function LastN<T>(s: seq<T>, n: nat): (r: seq<T>)
    ensures |r| == if |s| <= n then |s| else n
  {
    if |s| <= n then s else s[|s| - n..]
  }

  /** Appending to a window below capacity keeps everything; appending to a
      full window evicts exactly the oldest entry and keeps the order. */
  lemma LastNAppendOne<T>(s: seq<T>, n: nat, x: T)
    requires |s| <= n
    ensures |s| < n ==> LastN(s + [x], n) == s + [x]
    ensures 0 < |s| == n ==> LastN(s + [x], n) == s[1..] + [x]
    ensures n == 0 ==> LastN(s + [x], n) == []
  {
  }

  /** Trimming to the last `n` before appending more changes nothing about
      the last `n` afterwards: the window only ever depends on the most
      recent `n` samples. */
  lemma {:induction false} LastNAbsorbs<T>(s: seq<T>, c: seq<T>, n: nat)
    ensures LastN(LastN(s, n) + c, n) == LastN(s + c, n)
  {
    var a := LastN(s, n) + c;
    var b := s + c;
    assert |LastN(a, n)| == |LastN(b, n)|;
    forall k | 0 <= k < |LastN(a, n)|
      ensures LastN(a, n)[k] == LastN(b, n)[k]
    {
      var m := |LastN(a, n)|;
      var i := |a| - m + k;
      if i < |LastN(s, n)| {
        assert a[i] == LastN(s, n)[i];
        assert b[|b| - m + k] == s[|s| - |LastN(s, n)| + i];
      } else {
        assert a[i] == c[i - |LastN(s, n)|];
        assert b[|b| - m + k] == c[i - |LastN(s, n)|];
      }
    }
  }

  /** A `deque(maxlen=maxlen)` of samples, stored as a sequence that the
      methods reassign. */
  class Window<T> {
    const maxlen: nat
    var items: seq<T>

    ghost predicate Valid()
      reads this
    {
      |items| <= maxlen
    }

    /** `deque(maxlen=maxlen)`: an empty window. */
    constructor (maxlen: nat)
      ensures Valid() && this.maxlen == maxlen && items == []
    {
      this.maxlen := maxlen;
      items := [];
    }

    /** `append(x)`: the window becomes the last `maxlen` of its items
        followed by `x`. */
    method Append(x: T)
      requires Valid()
      modifies this
      ensures Valid()
      ensures items == LastN(old(items) + [x], maxlen)
    {
      LastNAppendOne(items, maxlen, x);
      if |items| < maxlen {
        items := items + [x];
      } else if maxlen > 0 {
        items := items[1..] + [x];
      }
    }

    /** `for gs in chunk: append(gs)`: the window becomes the last `maxlen`
        of its items followed by the whole chunk. */
    method AppendChunk(chunk: seq<T>)
      requires Valid()
      modifies this
      ensures Valid()
      ensures items == LastN(old(items) + chunk, maxlen)
    {
      ghost var start := items;
      assert start == LastN(start + chunk[..0], maxlen) by {
        assert start + chunk[..0] == start;
      }
      for i := 0 to |chunk|
        invariant Valid()
        invariant items == LastN(start + chunk[..i], maxlen)
      {
        Append(chunk[i]);
        LastNAbsorbs(start + chunk[..i], [chunk[i]], maxlen);
        assert start + chunk[..i] + [chunk[i]] == start + chunk[..i + 1];
      }
      assert chunk[..|chunk|] == chunk;
    }
  }
}
