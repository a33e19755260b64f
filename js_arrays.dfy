/** The JavaScript array primitives the bin-order editor is built from:
    `slice`, `splice` and `reverse`, with the index conventions of the
    language (a negative index counts from the end, every index is clamped
    to the array's bounds). */
module JsArrays {

  function Min(a: int, b: int): int { if a < b then a else b }

  /** Where a start or end argument lands in an array of length `len`. */
  function Resolve(i: int, len: nat): (r: nat)
    ensures r <= len
  {
    if i < 0 then (if len + i < 0 then 0 else len + i)
    else if i > len then len
    else i
  }

  /** How many elements `splice(start, deleteCount, ...)` removes. */
  function DeleteCount(len: nat, start: int, deleteCount: int): (n: nat)
    ensures Resolve(start, len) + n <= len
  {
    if deleteCount < 0 then 0 else Min(deleteCount, len - Resolve(start, len))
  }

  /** `s.slice(start, end)`: the elements between the two resolved indices. */
  function Slice<T>(s: seq<T>, start: int, end: int): seq<T> {
    var from, to := Resolve(start, |s|), Resolve(end, |s|);
    if from < to then s[from..to] else []
  }

  /** `s.splice(start, deleteCount, ...items)`: the pair (array afterwards,
      removed elements). */
  function Splice<T>(s: seq<T>, start: int, deleteCount: int, items: seq<T>): (seq<T>, seq<T>) {
    var from := Resolve(start, |s|);
    var n := DeleteCount(|s|, start, deleteCount);
    (s[..from] + items + s[from + n..], s[from..from + n])
  }

  /** `s.reverse()`, on a copy. */
  function Reverse<T>(s: seq<T>): (r: seq<T>)
    ensures |r| == |s|
    ensures forall k :: 0 <= k < |s| ==> r[k] == s[|s| - 1 - k]
  {
    if s == [] then [] else Reverse(s[1..]) + [s[0]]
  }

  /** Slice with non-negative arguments: the region clamped to the array. */
  lemma SliceClamped<T>(s: seq<T>, start: int, end: int)
    requires 0 <= start && 0 <= end
    ensures var a, b := Min(start, |s|), Min(end, |s|);
            Slice(s, start, end) == if a < b then s[a..b] else []
  {
  }

  /** What slice returns is a sub-multiset of the array. */
  lemma SliceContents<T>(s: seq<T>, start: int, end: int)
    ensures multiset(Slice(s, start, end)) <= multiset(s)
    ensures forall v :: v in Slice(s, start, end) ==> v in s
  {
    var from, to := Resolve(start, |s|), Resolve(end, |s|);
    if from < to {
      assert s == s[..from] + s[from..to] + s[to..];
    }
  }

  /** Splice of a region inside the array. */
  lemma SpliceAt<T>(s: seq<T>, start: int, deleteCount: int, items: seq<T>)
    requires 0 <= start && 0 <= deleteCount && start + deleteCount <= |s|
    ensures Splice(s, start, deleteCount, items)
              == (s[..start] + items + s[start + deleteCount..], s[start..start + deleteCount])
    ensures items == [] ==> Splice(s, start, deleteCount, items).0 == s[..start] + s[start + deleteCount..]
  {
    assert DeleteCount(|s|, start, deleteCount) == deleteCount;
    assert s[..start] + [] == s[..start];
  }

  /** Splice with a non-negative start and count: the region is clamped to
      the array. */
  lemma SpliceClamped<T>(s: seq<T>, start: int, deleteCount: int, items: seq<T>)
    requires 0 <= start && 0 <= deleteCount
    ensures var a, b := Min(start, |s|), Min(start + deleteCount, |s|);
            Splice(s, start, deleteCount, items) == (s[..a] + items + s[b..], s[a..b])
  {
  }

  /** Splice neither loses nor invents elements: what it leaves plus what
      it removes is the array plus the inserted items. */
  lemma SpliceContents<T>(s: seq<T>, start: int, deleteCount: int, items: seq<T>)
    ensures var r := Splice(s, start, deleteCount, items);
            |r.0| + |r.1| == |s| + |items|
            && multiset(r.0) + multiset(r.1) == multiset(s) + multiset(items)
            && (forall v :: v in r.0 ==> v in s || v in items)
  {
    var from := Resolve(start, |s|);
    var n := DeleteCount(|s|, start, deleteCount);
    assert s == s[..from] + s[from..from + n] + s[from + n..];
  }

  /** With a non-negative start and count, `splice` removes exactly what
      `slice` over the same region returns. */
  lemma SpliceRemovesSlice<T>(s: seq<T>, start: int, deleteCount: int, items: seq<T>)
    requires 0 <= start && 0 <= deleteCount
    ensures Splice(s, start, deleteCount, items).1 == Slice(s, start, start + deleteCount)
  {
    if start > |s| {
      assert Resolve(start, |s|) == |s| && Resolve(start + deleteCount, |s|) == |s|;
    } else if start + deleteCount > |s| {
      assert Resolve(start + deleteCount, |s|) == |s|;
    }
  }

  /** Splicing in a rearrangement of the very region removed leaves a
      rearrangement of the array. */
  lemma SpliceRearranged<T>(s: seq<T>, start: int, deleteCount: int, items: seq<T>)
    requires 0 <= start && 0 <= deleteCount
    requires multiset(items) == multiset(Slice(s, start, start + deleteCount))
    ensures |Splice(s, start, deleteCount, items).0| == |s|
    ensures multiset(Splice(s, start, deleteCount, items).0) == multiset(s)
  {
    var r := Splice(s, start, deleteCount, items);
    SpliceContents(s, start, deleteCount, items);
    SpliceRemovesSlice(s, start, deleteCount, items);
    assert |items| == |multiset(items)| == |r.1|;
    var a, b, c := multiset(r.0), multiset(s), multiset(items);
    assert a + c == b + c;
    assert forall o :: a[o] == (a + c)[o] - c[o] == (b + c)[o] - c[o] == b[o];
  }

  /** A pure insertion removes nothing. */
  lemma SpliceInsert<T>(s: seq<T>, start: int, items: seq<T>)
    ensures Splice(s, start, 0, items).1 == []
  {
  }

  /** Replacing the middle part `[a, b)` of a sequence by a part of the
      same length keeps the two outer parts. */
  lemma ReplaceMiddle<T>(s: seq<T>, a: int, b: int, m: seq<T>)
    requires 0 <= a <= b <= |s| && |m| == b - a
    ensures var t := s[..a] + m + s[b..];
            |t| == |s| && t[..a] == s[..a] && t[a..b] == m && t[b..] == s[b..]
  {
    var t := s[..a] + m + s[b..];
    assert t[..a] == s[..a];
    assert t[a..b] == m;
    assert t[b..] == s[b..];
  }

  /** A sequence is its three parts around `[a, b)`, put back together. */
  lemma ThreeParts<T>(s: seq<T>, a: int, b: int)
    requires 0 <= a <= b <= |s|
    ensures s == s[..a] + s[a..b] + s[b..]
  {
  }

  /** Reversal permutes. */
  lemma {:induction false} ReverseContents<T>(s: seq<T>)
    ensures multiset(Reverse(s)) == multiset(s)
  {
    if s != [] {
      ReverseContents(s[1..]);
      assert s == [s[0]] + s[1..];
    }
  }

  /** Reversing twice gives the original back. */
  lemma ReverseReverse<T>(s: seq<T>)
    ensures Reverse(Reverse(s)) == s
  {
    assert forall k :: 0 <= k < |s| ==> Reverse(Reverse(s))[k] == s[k];
  }
}
