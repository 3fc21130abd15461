/**
  The three JavaScript array operations the world relies on, with the
  semantics of the language: `indexOf` (first position of an element, or -1),
  `splice(start, 1)` (delete one element, where a negative start counts from
  the end) and element-wise mapping (`forEach` over an array of objects that
  each update themselves).
 */
module JsArray {

  /** `s.indexOf(o)`: the first position holding `o`, or -1 when there is none. */
  function IndexOf<T(==)>(s: seq<T>, o: T): (r: int)
    ensures -1 <= r < |s|
    ensures r == -1 <==> o !in s
    ensures 0 <= r ==> s[r] == o
    ensures forall k :: 0 <= k < r ==> s[k] != o
  {
    if |s| == 0 then -1
    else if s[0] == o then 0
    else
      var k := IndexOf(s[1..], o);
      if k < 0 then -1 else k + 1
  }

  /**
    The position `splice(start, ...)` actually starts at: a negative start is
    taken relative to the end of the array, and the result is clamped to
    `[0, len]`.
   */
  function SpliceStart(len: nat, start: int): (k: nat)
    ensures k <= len
    ensures 0 <= start <= len ==> k == start
    ensures start < 0 && 0 <= len + start ==> k == len + start
    ensures len + start < 0 ==> k == 0
    ensures len < start ==> k == len
  {
    if start < 0 then (if len + start < 0 then 0 else len + start)
    else if start > len then len
    else start
  }

  /**
    `s.splice(start, 1)`: the array left after deleting the one element at
    the actual start, or the array itself when that start is its end.
   */
  function SpliceOne<T>(s: seq<T>, start: int): (r: seq<T>)
    ensures var k := SpliceStart(|s|, start);
      && (k < |s| ==> |r| == |s| - 1)
      && (k == |s| ==> r == s)
      && (forall i :: 0 <= i < k && i < |r| ==> r[i] == s[i])
      && (forall i :: k <= i < |r| ==> r[i] == s[i + 1])
  {
    var k := SpliceStart(|s|, start);
    if k < |s| then s[..k] + s[k + 1..] else s
  }

  /** `s.splice(s.indexOf(o), 1)`: the idiom the world uses to delete an object. */
  function RemoveFrom<T(==)>(s: seq<T>, o: T): seq<T>
  {
    SpliceOne(s, IndexOf(s, o))
  }

  /**
    When `o` is present, the idiom deletes exactly its first occurrence and
    keeps every other element in order.
   */
  lemma RemoveFromPresent<T>(s: seq<T>, o: T)
    requires o in s
    ensures var i := IndexOf(s, o);
      && RemoveFrom(s, o) == s[..i] + s[i + 1..]
      && multiset(RemoveFrom(s, o)) == multiset(s) - multiset{o}
  {
    var i := IndexOf(s, o);
    assert RemoveFrom(s, o) == s[..i] + s[i + 1..];
    DeleteAtMultiset(s, i);
  }

  /** Deleting the element at `i` takes exactly one copy of it out of the multiset. */
  lemma DeleteAtMultiset<T>(s: seq<T>, i: nat)
    requires i < |s|
    ensures multiset(s[..i] + s[i + 1..]) == multiset(s) - multiset{s[i]}
  {
    assert s == s[..i] + ([s[i]] + s[i + 1..]);
  }

  /**
    When `o` is absent, `indexOf` answers -1 and the idiom deletes the LAST
    element instead (an empty array is left as it is).
   */
  lemma RemoveFromAbsent<T>(s: seq<T>, o: T)
    requires o !in s
    ensures |s| == 0 ==> RemoveFrom(s, o) == s
    ensures |s| > 0 ==> RemoveFrom(s, o) == s[..|s| - 1]
  {
  }

  /** Deleting an element keeps every property all elements had. */
  lemma RemoveFromKeeps<T>(s: seq<T>, o: T, P: T -> bool)
    requires forall i :: 0 <= i < |s| ==> P(s[i])
    ensures forall i :: 0 <= i < |RemoveFrom(s, o)| ==> P(RemoveFrom(s, o)[i])
  {
  }

  /** `forEach` over an array of objects that each update themselves. */
  function MapSeq<T, U>(s: seq<T>, f: T -> U): (r: seq<U>)
    ensures |r| == |s|
    ensures forall i :: 0 <= i < |s| ==> r[i] == f(s[i])
  {
    if |s| == 0 then [] else [f(s[0])] + MapSeq(s[1..], f)
  }
}
