/** A stable min-priority queue backed by a list of (item, priority) pairs.
    Enqueue appends; Dequeue scans for the first entry of smallest priority
    and removes it. Priorities are compared only with `<`. */
module PriorityQueues {

  datatype Option<T> = None | Some(value: T)

  /** One stored pair of the queue's list. */
  datatype Entry<T> = Entry(item: T, priority: int)

  /** k is the first index of s whose priority is no larger than any other. */
  ghost predicate IsFirstMin<T>(s: seq<Entry<T>>, k: int)
  {
    && 0 <= k < |s|
    && (forall j :: 0 <= j < |s| ==> s[k].priority <= s[j].priority)
    && (forall j :: 0 <= j < k ==> s[k].priority < s[j].priority)
  }

  /** Reference definition of the entry Dequeue takes: the first entry of
      minimal priority, found by a left-to-right scan with strict `<`. */
  function FirstMin<T>(s: seq<Entry<T>>): (k: nat)
    requires |s| > 0
    ensures IsFirstMin(s, k)
  {
    if |s| == 1 then 0
    else
      var k := FirstMin(s[..|s| - 1]);
      if s[|s| - 1].priority < s[k].priority then |s| - 1 else k
  }

  /** There is only one first minimum, so any index with that property is FirstMin. */
  lemma FirstMinUnique<T>(s: seq<Entry<T>>, k: int)
    requires IsFirstMin(s, k)
    ensures k == FirstMin(s)
  {
  }

  /** The minimum scan of Dequeue: `best` starts at 0 and moves only to a
      strictly smaller priority, so ties stay with the earliest entry. */
  method FindBest<T>(s: seq<Entry<T>>) returns (best: nat)
    requires |s| > 0
    ensures IsFirstMin(s, best)
  {
    best := 0;
    for i := 1 to |s|
      invariant best < i
      invariant forall j :: 0 <= j < i ==> s[best].priority <= s[j].priority
      invariant forall j :: 0 <= j < best ==> s[best].priority < s[j].priority
    {
      if s[i].priority < s[best].priority {
        best := i;
      }
    }
  }

  /** List.RemoveAt: drop the element at index k, keeping the order of the rest. */
  function RemoveAt<E>(s: seq<E>, k: nat): (r: seq<E>)
    requires k < |s|
    ensures |r| == |s| - 1
    ensures forall j :: 0 <= j < k ==> r[j] == s[j]
    ensures forall j :: k <= j < |r| ==> r[j] == s[j + 1]
    ensures multiset(r) + multiset{s[k]} == multiset(s)
  {
    assert s == s[..k] + [s[k]] + s[k + 1..];
    s[..k] + s[k + 1..]
  }

  /** List.Exists over the items: a left-to-right search for x. */
  function HasItem<T(==)>(s: seq<Entry<T>>, x: T): (b: bool)
    ensures b <==> exists j :: 0 <= j < |s| && s[j].item == x
  {
    if |s| == 0 then false
    else if s[0].item == x then true
    else
      var b := HasItem(s[1..], x);
      assert forall j :: 1 <= j < |s| ==> s[1..][j - 1] == s[j];
      b
  }

  /** Appending an entry adds exactly its item to the items found by HasItem. */
  lemma HasItemAppend<T>(s: seq<Entry<T>>, e: Entry<T>, x: T)
    ensures HasItem(s + [e], x) <==> HasItem(s, x) || e.item == x
  {
    if HasItem(s, x) {
      var j :| 0 <= j < |s| && s[j].item == x;
      assert (s + [e])[j] == s[j];
    }
    assert (s + [e])[|s|] == e;
  }

  /** The entries in the order that repeated Dequeue calls return them. */
  function DrainOrder<T>(s: seq<Entry<T>>): seq<Entry<T>>
    decreases |s|
  {
    if |s| == 0 then []
    else
      var k := FirstMin(s);
      [s[k]] + DrainOrder(RemoveAt(s, k))
  }

  /** The entries of s with priority p, in their order in s. */
  function WithPriority<T>(s: seq<Entry<T>>, p: int): seq<Entry<T>>
  {
    if |s| == 0 then []
    else (if s[0].priority == p then [s[0]] else []) + WithPriority(s[1..], p)
  }

  lemma {:induction false} WithPriorityAppend<T>(a: seq<Entry<T>>, b: seq<Entry<T>>, p: int)
    ensures WithPriority(a + b, p) == WithPriority(a, p) + WithPriority(b, p)
  {
    if |a| > 0 {
      assert (a + b)[1..] == a[1..] + b;
      WithPriorityAppend(a[1..], b, p);
    } else {
      assert a + b == b;
    }
  }

  lemma {:induction false} WithPriorityNone<T>(s: seq<Entry<T>>, p: int)
    requires forall j :: 0 <= j < |s| ==> s[j].priority != p
    ensures WithPriority(s, p) == []
  {
    if |s| > 0 {
      WithPriorityNone(s[1..], p);
    }
  }

  /** Draining the queue returns every stored entry exactly as often as it was stored. */
  lemma {:induction false} DrainIsPermutation<T>(s: seq<Entry<T>>)
    ensures multiset(DrainOrder(s)) == multiset(s)
    decreases |s|
  {
    if |s| > 0 {
      var k := FirstMin(s);
      DrainIsPermutation(RemoveAt(s, k));
    }
  }

  /** Draining the queue returns priorities in non-decreasing order. */
  lemma {:induction false} DrainIsSorted<T>(s: seq<Entry<T>>)
    ensures forall i, j :: 0 <= i < j < |DrainOrder(s)| ==>
      DrainOrder(s)[i].priority <= DrainOrder(s)[j].priority
    decreases |s|
  {
    if |s| > 0 {
      var k := FirstMin(s);
      var rest := RemoveAt(s, k);
      var d := DrainOrder(s);
      var dr := DrainOrder(rest);
      assert d == [s[k]] + dr;
      DrainIsSorted(rest);
      DrainIsPermutation(rest);
      forall j | 0 <= j < |dr|
        ensures s[k].priority <= dr[j].priority
      {
        assert dr[j] in multiset(rest);
        assert dr[j] in multiset(s);
        var i :| 0 <= i < |s| && s[i] == dr[j];
      }
    }
  }

  /** Taking out the entry at k, when no earlier entry shares its priority p,
      moves it to the front of the entries of priority p and keeps the order
      of all others. */
  lemma WithPriorityExtract<T>(s: seq<Entry<T>>, k: nat, p: int)
    requires k < |s|
    requires s[k].priority == p ==> forall j :: 0 <= j < k ==> s[j].priority != p
    ensures WithPriority(s, p) == WithPriority([s[k]], p) + WithPriority(s[..k] + s[k + 1..], p)
  {
    var before, e, after := s[..k], s[k], s[k + 1..];
    assert s == before + ([e] + after);
    WithPriorityAppend(before, [e] + after, p);
    WithPriorityAppend([e], after, p);
    WithPriorityAppend(before, after, p);
    if e.priority == p {
      assert forall j :: 0 <= j < |before| ==> before[j].priority != p;
      WithPriorityNone(before, p);
    } else {
      assert [e][1..] == [];
    }
  }

  /** Stability: among entries of equal priority, draining keeps their insertion order. */
  lemma {:induction false} DrainIsStable<T>(s: seq<Entry<T>>, p: int)
    ensures WithPriority(DrainOrder(s), p) == WithPriority(s, p)
    decreases |s|
  {
    if |s| > 0 {
      var k := FirstMin(s);
      var rest := RemoveAt(s, k);
      var d := DrainOrder(rest);
      assert DrainOrder(s) == [s[k]] + d;
      DrainIsStable(rest, p);
      WithPriorityAppend([s[k]], d, p);
      WithPriorityExtract(s, k, p);
    }
  }

  /** _data as a list of pairs that Enqueue and Dequeue update in place. */
  class SimplePriorityQueue<T(==)> {
    var data: seq<Entry<T>>

    constructor ()
      ensures data == []
    {
      data := [];
    }

    /** The number of stored pairs, duplicates included. */
    function Count(): (n: nat)
      reads this
      ensures n == |data| == |multiset(data)|
    {
      |data|
    }

    /** Appends the pair at the end; an item already present gets a second entry. */
    method Enqueue(item: T, priority: int)
      modifies this
      ensures data == old(data) + [Entry(item, priority)]
      ensures Count() == old(Count()) + 1
      ensures Contains(item)
      ensures forall y :: y != item ==> (HasItem(data, y) <==> HasItem(old(data), y))
    {
      var e := Entry(item, priority);
      data := data + [e];
      HasItemAppend(old(data), e, item);
      forall y | y != item
        ensures HasItem(data, y) <==> HasItem(old(data), y)
      {
        HasItemAppend(old(data), e, y);
      }
    }

    /** Removes and returns the item of the first entry of smallest priority.
        On an empty list the C# index `_data[0]` throws before anything
        is removed: that is the None result with the state unchanged. */
    method Dequeue() returns (r: Option<T>)
      modifies this
      ensures old(data) == [] ==> r == None && data == old(data)
      ensures old(data) != [] ==> exists k ::
        && IsFirstMin(old(data), k)
        && r == Some(old(data)[k].item)
        && data == RemoveAt(old(data), k)
      ensures old(data) != [] ==> |data| == |old(data)| - 1
      ensures old(data) != [] ==> exists e ::
        && e in old(data)
        && r == Some(e.item)
        && multiset(data) + multiset{e} == multiset(old(data))
        && (forall j :: 0 <= j < |old(data)| ==> e.priority <= old(data)[j].priority)
      ensures old(data) != [] ==>
        && r == Some(DrainOrder(old(data))[0].item)
        && DrainOrder(old(data)) == [DrainOrder(old(data))[0]] + DrainOrder(data)
    {
      if |data| == 0 {
        return None;
      }
      var best := FindBest(data);
      ghost var e := data[best];
      r := Some(data[best].item);
      data := RemoveAt(data, best);
      assert IsFirstMin(old(data), best);
      assert e in old(data);
      FirstMinUnique(old(data), best);
    }

    /** True iff some stored pair holds `item`. */
    function Contains(item: T): (b: bool)
      reads this
      ensures b <==> exists j :: 0 <= j < |data| && data[j].item == item
    {
      HasItem(data, item)
    }
  }
}
