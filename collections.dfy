/** The collection extensions: `Array.indexes`, the indexed `forEach`, and
    `RangeReplaceableCollection.appended`. Arrays and collections are Swift
    value types, so they are sequences here; the receiver of every
    operation is a value the operation cannot change. */
module Collections {
  import opened Wrappers

  /** The integers `lo ..< hi`, in ascending order. */
  function Range(lo: int, hi: int): (r: seq<int>)
    decreases hi - lo
    ensures |r| == if lo <= hi then hi - lo else 0
    ensures forall i :: 0 <= i < |r| ==> r[i] == lo + i
  {
    if lo >= hi then [] else [lo] + Range(lo + 1, hi)
  }

  /** `indexes`: `0 ..< count`, every valid subscript once, in order. */
  function Indexes<T>(a: seq<T>): (r: seq<int>)
    ensures |r| == |a|
    ensures forall i :: 0 <= i < |r| ==> r[i] == i
  {
    Range(0, |a|)
  }

  /** The indexed `forEach`. The body is given the index and the element
      and either returns or throws; what it does besides is not modelled,
      so the method returns the calls it made, in order, and the error that
      ended the loop, if any. */
  method ForEach<T, E>(a: seq<T>, body: (int, T) -> Option<E>) returns (calls: seq<(int, T)>, thrown: Option<E>)
    ensures |calls| <= |a|
    ensures forall j :: 0 <= j < |calls| ==> calls[j] == (j, a[j])
    ensures thrown.None? ==> |calls| == |a|
    ensures thrown.Some? ==> |calls| > 0 && thrown == body(|calls| - 1, a[|calls| - 1])
    ensures forall j :: 0 <= j < |calls| ==> (body(j, a[j]).None? <==> thrown.None? || j < |calls| - 1)
  {
    calls := [];
    var indexes := Indexes(a);
    var k := 0;
    while k < |indexes|
      invariant 0 <= k <= |indexes|
      invariant |calls| == k
      invariant forall j :: 0 <= j < k ==> calls[j] == (j, a[j]) && body(j, a[j]).None?
    {
      var i := indexes[k];
      calls := calls + [(i, a[i])];
      var outcome := body(i, a[i]);
      if outcome.Some? {
        return calls, outcome;
      }
      k := k + 1;
    }
    return calls, None;
  }

  /** On an empty array the body is never called. */
  method ForEachEmpty<T, E>(body: (int, T) -> Option<E>) returns (calls: seq<(int, T)>, thrown: Option<E>)
    ensures calls == [] && thrown == None
  {
    calls, thrown := ForEach([], body);
  }

  /** `appended(_:)`: a copy of the collection with the element added at the
      end. */
  method Appended<T>(s: seq<T>, newElement: T) returns (result: seq<T>)
    ensures |result| == |s| + 1
    ensures result[..|s|] == s && result[|s|] == newElement
  {
    result := s;
    result := result + [newElement];
  }

  /** `appended(contentsOf:)`: a copy of the collection with the elements of
      the sequence added at the end in the order the sequence yields them. */
  method AppendedContentsOf<T>(s: seq<T>, newElements: seq<T>) returns (result: seq<T>)
    ensures |result| == |s| + |newElements|
    ensures result[..|s|] == s && result[|s|..] == newElements
  {
    result := s;
    var i := 0;
    while i < |newElements|
      invariant 0 <= i <= |newElements|
      invariant result == s + newElements[..i]
    {
      result := result + [newElements[i]];
      i := i + 1;
    }
    assert newElements[..i] == newElements;
  }

  /** Appending one element is appending the one-element sequence, and
      appending the empty sequence gives an equal copy. */
  method AppendedAgree<T>(s: seq<T>, x: T) returns (one: seq<T>, viaContents: seq<T>, viaEmpty: seq<T>)
    ensures one == viaContents == s + [x]
    ensures viaEmpty == s
  {
    one := Appended(s, x);
    viaContents := AppendedContentsOf(s, [x]);
    viaEmpty := AppendedContentsOf(s, []);
    assert one == one[..|s|] + [one[|s|]];
    assert viaContents == viaContents[..|s|] + viaContents[|s|..];
    assert viaEmpty == viaEmpty[..|s|];
  }
}
