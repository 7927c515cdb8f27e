/** The undo and redo histories: stacks of states capped at 50 entries. A stack is a
    sequence listed from the bottom, so its top is the last element. */
module History {
  /** The most entries either history keeps. */
  const MaxHistorySize: int := 50

  function Reversed<T>(s: seq<T>): (r: seq<T>)
    ensures |r| == |s| && forall i :: 0 <= i < |s| ==> r[i] == s[|s| - 1 - i]
  {
    seq(|s|, i requires 0 <= i < |s| => s[|s| - 1 - i])
  }

  /** The stack's entries from the top down: how a stack enumerates into a list. */
  function ToList<T>(st: seq<T>): (l: seq<T>)
    ensures |l| == |st| && forall i :: 0 <= i < |st| ==> l[i] == st[|st| - 1 - i]
  {
    Reversed(st)
  }

  /** Push each item in turn. */
  function PushAll<T>(st: seq<T>, items: seq<T>): (r: seq<T>)
    ensures r == st + items
    decreases |items|
  {
    if items == [] then st
    else
      assert st + items == (st + [items[0]]) + items[1..];
      PushAll(st + [items[0]], items[1..])
  }

  /** Making room in a full stack: list it from the top, remove the list's first entry,
      clear the stack and push the list's entries back in reverse. Because the list
      starts at the top, the entry removed is the most recent one, not the oldest. */
  function Evict<T>(st: seq<T>): (r: seq<T>)
    requires st != []
    ensures r == st[..|st| - 1]
  {
    var listed := ToList(st);
    var temp := listed[1..];
    var r := PushAll([], Reversed(temp));
    assert r == st[..|st| - 1] by {
      assert |r| == |st| - 1;
      forall i | 0 <= i < |r|
        ensures r[i] == st[i]
      {
        assert r[i] == temp[|temp| - 1 - i] == listed[|temp| - i];
      }
    }
    r
  }

  /** Push onto a history, first evicting when it already holds the maximum. The pushed
      entry becomes the top; a history within the cap stays within it; below the cap
      nothing is lost, and at the cap the previous top is the entry lost. */
  function BoundedPush<T>(st: seq<T>, x: T): (r: seq<T>)
    ensures r != [] && r[|r| - 1] == x
    ensures |st| <= MaxHistorySize ==> |r| <= MaxHistorySize
    ensures |st| < MaxHistorySize ==> r == st + [x]
    ensures |st| >= MaxHistorySize ==> r == st[..|st| - 1] + [x]
  {
    if |st| >= MaxHistorySize then Evict(st) + [x] else st + [x]
  }
}
