/**
 The queue of packages/common/src/queue.ts: a list with a head index, whose consumed prefix
 is dropped lazily, and an iterator that survives changes made between its steps.
 */
module Fifo {
  import opened Wrappers

  /** What a queue is to its users: the live elements, and how many left by the front. */
  datatype View<T> = View(contents: seq<T>, removed: int)

  function Pushed<T>(v: View<T>, xs: seq<T>): View<T> {
    v.(contents := v.contents + xs)
  }

  function Shifted<T>(v: View<T>): View<T> {
    if v.contents == [] then v else View(v.contents[1..], v.removed + 1)
  }

  function Unshifted<T>(v: View<T>, x: T): View<T> {
    View([x] + v.contents, v.removed - 1)
  }

  function Cleared<T>(v: View<T>): View<T> {
    View([], v.removed + |v.contents|)
  }

  function Kept<T>(xs: seq<T>, keep: (T, nat) -> bool, n: nat): seq<T>
    requires n <= |xs|
  {
    if n == 0 then [] else Kept(xs, keep, n - 1) + if keep(xs[n - 1], n - 1) then [xs[n - 1]] else []
  }

  /** The generator: not yet run, suspended before `position`, or finished. */
  datatype Iter = Fresh | Suspended(position: int) | Finished

  function Position<T>(v: View<T>, it: Iter): int
    requires !it.Finished?
  {
    if it.Fresh? then v.removed else it.position
  }

  /** The index the generator looks at, counted from the front. */
  function Look<T>(v: View<T>, it: Iter): nat
    requires !it.Finished?
  {
    var d := Position(v, it) - v.removed;
    if d < 0 then 0 else d
  }

  function Next<T>(v: View<T>, it: Iter): (r: (Iter, Option<T>)) {
    if it.Finished? then (Finished, None)
    else if Look(v, it) >= |v.contents| then (Finished, None)
    else (Suspended(v.removed + Look(v, it) + 1), Some(v.contents[Look(v, it)]))
  }

  class FifoQueue<T> {
    /** A slot is emptied when its element is shifted. */
    var items: seq<Option<T>>
    var head: nat
    var removed: int
    /** History: elements moved by compaction, and calls that removed an element. */
    ghost var copied: nat
    ghost var shifts: nat

    ghost predicate Valid()
      reads this
    {
      && head <= |items|
      && (forall i :: head <= i < |items| ==> items[i].Some?)
      && copied + head <= shifts
    }

    function Contents(): (s: seq<T>)
      requires Valid()
      reads this
      ensures |s| == |items| - head
      ensures forall i :: 0 <= i < |s| ==> items[head + i] == Some(s[i])
    {
      seq(|items| - head, i requires 0 <= i < |items| - head && Valid() reads this => items[head + i].value)
    }

    ghost function Abstract(): View<T>
      requires Valid()
      reads this
    {
      View(Contents(), removed)
    }

    constructor (initial: seq<T>)
      ensures Valid() && Abstract() == View(initial, 0) && copied == shifts == 0
    {
      items := seq(|initial|, i requires 0 <= i < |initial| => Some(initial[i]));
      head, removed := 0, 0;
      copied, shifts := 0, 0;
    }

    method Push(xs: seq<T>) returns (length: nat)
      requires Valid()
      modifies this`items
      ensures Valid() && Abstract() == Pushed(old(Abstract()), xs) && length == |Contents()|
    {
      for i := 0 to |xs|
        invariant Valid() && Contents() == old(Contents()) + xs[..i]
      {
        ghost var was := Contents();
        items := items + [Some(xs[i])];
        assert Contents() == was + [xs[i]];
        assert xs[..i + 1] == xs[..i] + [xs[i]];
      }
      assert xs[..|xs|] == xs;
      length := |items| - head;
    }

    method Shift() returns (x: Option<T>)
      requires Valid()
      modifies this
      ensures Valid() && Abstract() == Shifted(old(Abstract()))
      ensures x == if old(Contents()) == [] then None else Some(old(Contents())[0])
      ensures shifts == old(shifts) + if x.Some? then 1 else 0
    {
      if head >= |items| {
        return None;
      }
      x := items[head];
      items := items[head := None];
      head := head + 1;
      removed := removed + 1;
      shifts := shifts + 1;
      assert Contents() == old(Contents())[1..];
      Compact();
    }

    method Reset()
      modifies this`items, this`head
      ensures items == [] && head == 0
    {
      items, head := [], 0;
    }

    /** Moves no element twice for one shift: a compaction copies at most as many as it drops. */
    method Compact()
      requires Valid()
      modifies this`items, this`head, this`copied
      ensures Valid() && Contents() == old(Contents())
      ensures (items == old(items) && head == old(head) && copied == old(copied)) ||
              (head == 0 && copied == old(copied) + |Contents()|)
    {
      if head == |items| {
        Reset();
      } else if head >= 1024 && head * 2 >= |items| {
        copied := copied + (|items| - head);
        items := items[head..];
        head := 0;
      }
    }

    method Unshift(x: T) returns (length: nat)
      requires Valid()
      modifies this`items, this`head, this`removed
      ensures Valid() && Abstract() == Unshifted(old(Abstract()), x) && length == |Contents()|
    {
      removed := removed - 1;
      if head > 0 {
        head := head - 1;
        items := items[head := Some(x)];
      } else {
        items := [Some(x)] + items;
      }
      assert Contents()[0] == x && Contents()[1..] == old(Contents());
      length := |items| - head;
    }

    method Peek() returns (x: Option<T>)
      requires Valid()
      ensures x == if Contents() == [] then None else Some(Contents()[0])
    {
      x := if head < |items| then items[head] else None;
    }

    method Last() returns (x: Option<T>)
      requires Valid()
      ensures x == if Contents() == [] then None else Some(Contents()[|Contents()| - 1])
    {
      x := if |items| - head > 0 then items[|items| - 1] else None;
    }

    /** A negative index counts from the back. */
    method At(index: int) returns (x: Option<T>)
      requires Valid()
      ensures 0 <= index < |Contents()| ==> x == Some(Contents()[index])
      ensures -|Contents()| <= index < 0 ==> x == Some(Contents()[|Contents()| + index])
      ensures index >= |Contents()| || index < -|Contents()| ==> x == None
    {
      var length := |items| - head;
      var i := if index < 0 then length + index else index;
      if i < 0 || i >= length {
        return None;
      }
      x := items[head + i];
    }

    /** The first index that satisfies the predicate, or -1 when none does. */
    method FindIndex(pred: (T, nat) -> bool) returns (k: int)
      requires Valid()
      ensures -1 <= k < |Contents()|
      ensures k >= 0 ==> pred(Contents()[k], k)
      ensures forall i :: 0 <= i < (if k < 0 then |Contents()| else k) ==> !pred(Contents()[i], i)
    {
      var i := head;
      while i < |items|
        invariant head <= i <= |items|
        invariant forall j :: 0 <= j < i - head ==> !pred(Contents()[j], j)
      {
        if pred(items[i].value, i - head) {
          return i - head;
        }
        i := i + 1;
      }
      k := -1;
    }

    method Filter(keep: (T, nat) -> bool) returns (queue: FifoQueue<T>)
      requires Valid()
      ensures fresh(queue) && queue.Valid() && queue.Contents() == Kept(Contents(), keep, |Contents()|)
    {
      queue := new FifoQueue([]);
      var i := head;
      while i < |items|
        invariant head <= i <= |items| && queue.Valid() && fresh(queue)
        invariant queue.Contents() == Kept(Contents(), keep, i - head)
      {
        var item := items[i].value;
        if keep(item, i - head) {
          queue.items := queue.items + [Some(item)];
        }
        i := i + 1;
      }
    }

    method Clear()
      requires Valid()
      modifies this`items, this`head, this`removed
      ensures Valid() && Abstract() == Cleared(old(Abstract()))
    {
      removed := removed + (|items| - head);
      Reset();
    }

    /** One resumption of the generator. */
    method Resume(it: Iter) returns (it': Iter, x: Option<T>)
      requires Valid()
      ensures (it', x) == Next(Abstract(), it)
    {
      if it.Finished? {
        return Finished, None;
      }
      var position := if it.Fresh? then removed else it.position;
      var index := if position - removed < 0 then 0 else position - removed;
      if index >= |items| - head {
        return Finished, None;
      }
      it', x := Suspended(removed + index + 1), items[head + index];
    }
  }

  // Runs of a queue with one iterator

  /** An element's index counts from the first one the queue ever held; it stays while the element does. */
  datatype Yielded<T> = Yielded(index: int, value: T, removed: int)

  datatype Op<T> = Push(xs: seq<T>) | Shift | Unshift(x: T) | Clear | Resume

  /**
   A queue, an iterator, what it yielded so far with the queue's front at that time, the index it
   began at, and the indices that were filled by `unshift`.
   */
  datatype Run<T> = Run(view: View<T>, iter: Iter, yielded: seq<Yielded<T>>, begin: int, back: set<int>)

  function Step<T>(r: Run<T>, op: Op<T>): Run<T> {
    match op
    case Push(xs) => r.(view := Pushed(r.view, xs))
    case Shift => r.(view := Shifted(r.view))
    case Unshift(x) => r.(view := Unshifted(r.view, x), back := r.back + {r.view.removed - 1})
    case Clear => r.(view := Cleared(r.view))
    case Resume =>
      var (it, x) := Next(r.view, r.iter);
      Run(r.view, it,
          if x.Some? then r.yielded + [Yielded(it.position - 1, x.value, r.view.removed)] else r.yielded,
          if r.iter.Fresh? then r.view.removed else r.begin,
          if r.iter.Fresh? then {} else r.back)
  }

  function Start<T>(xs: seq<T>): Run<T> {
    Run(View(xs, 0), Fresh, [], 0, {})
  }

  function Steps<T>(r: Run<T>, ops: seq<Op<T>>): Run<T>
    decreases |ops|
  {
    if ops == [] then r else Step(Steps(r, ops[..|ops| - 1]), ops[|ops| - 1])
  }

  predicate Live<T>(v: View<T>, j: int) {
    v.removed <= j < v.removed + |v.contents|
  }

  /** The first index the iterator has not looked at. */
  function Reached<T>(r: Run<T>): int {
    if r.yielded == [] then r.begin else r.yielded[|r.yielded| - 1].index + 1
  }

  ghost predicate WasYielded<T>(r: Run<T>, j: int, x: T) {
    exists k :: 0 <= k < |r.yielded| && r.yielded[k].index == j && r.yielded[k].value == x
  }

  /** Each yield is the least live index not below the one after the last yield. */
  ghost predicate InTurn<T>(r: Run<T>) {
    forall k: nat :: k < |r.yielded| ==> InTurnAt(r, k)
  }

  predicate InTurnAt<T>(r: Run<T>, k: nat)
    requires k < |r.yielded|
  {
    var from := if k == 0 then r.begin else r.yielded[k - 1].index + 1;
    r.yielded[k].index == if from < r.yielded[k].removed then r.yielded[k].removed else from
  }

  ghost predicate Complete<T>(r: Run<T>, end: int) {
    forall j :: Live(r.view, j) && r.begin <= j < end && j !in r.back ==>
      WasYielded(r, j, r.view.contents[j - r.view.removed])
  }

  ghost predicate RunInv<T>(r: Run<T>) {
    && (r.iter.Fresh? ==> r.yielded == [])
    && (r.iter.Suspended? ==> r.iter.position == Reached(r))
    && InTurn(r)
    && (!r.iter.Fresh? ==> Complete(r, Reached(r)) && Reached(r) <= r.view.removed + |r.view.contents|)
  }

  lemma StillYielded<T>(r: Run<T>, r': Run<T>, j: int, x: T)
    requires WasYielded(r, j, x) && r.yielded <= r'.yielded
    ensures WasYielded(r', j, x)
  {
    var k :| 0 <= k < |r.yielded| && r.yielded[k].index == j && r.yielded[k].value == x;
    assert r'.yielded[k] == r.yielded[k];
  }

  lemma TurnsStay<T>(r: Run<T>, r': Run<T>)
    requires InTurn(r) && r.yielded <= r'.yielded && (r.yielded != [] ==> r'.begin == r.begin)
    ensures forall k: nat :: k < |r.yielded| ==> InTurnAt(r', k)
  {
    forall k: nat | k < |r.yielded|
      ensures InTurnAt(r', k)
    {
      assert InTurnAt(r, k);
      assert r'.yielded[k] == r.yielded[k] && (k > 0 ==> r'.yielded[k - 1] == r.yielded[k - 1]);
    }
  }

  lemma StepKeepsInv<T>(r: Run<T>, op: Op<T>)
    requires RunInv(r)
    ensures RunInv(Step(r, op))
  {
    var r' := Step(r, op);
    if op.Resume? {
      ResumeKeepsInv(r);
    } else {
      assert r'.yielded == r.yielded && r'.iter == r.iter && r'.begin == r.begin;
      TurnsStay(r, r');
      if !r.iter.Fresh? {
        forall j | Live(r'.view, j) && r'.begin <= j < Reached(r') && j !in r'.back
          ensures WasYielded(r', j, r'.view.contents[j - r'.view.removed])
        {
          if Live(r.view, j) {
            StillYielded(r, r', j, r.view.contents[j - r.view.removed]);
          }
        }
      }
    }
  }

  lemma ResumeKeepsInv<T>(r: Run<T>)
    requires RunInv(r)
    ensures RunInv(Step(r, Resume))
    ensures !r.iter.Finished? && Next(r.view, r.iter).1 == None ==>
              Complete(Step(r, Resume), r.view.removed + |r.view.contents|)
  {
    var r' := Step(r, Resume);
    assert r'.view == r.view;
    TurnsStay(r, r');
    if !r.iter.Finished? {
      var v := r.view;
      if r'.iter.Suspended? {
        assert r'.yielded[|r'.yielded| - 1].index == v.removed + Look(v, r.iter);
      } else {
        assert r'.yielded == r.yielded;
      }
      assert Reached(r') <= v.removed + |v.contents|;
      var end := if r'.iter.Finished? then v.removed + |v.contents| else Reached(r');
      forall j | Live(v, j) && r'.begin <= j < end && j !in r'.back
        ensures WasYielded(r', j, v.contents[j - v.removed])
      {
        if r.iter.Suspended? && j < Reached(r) {
          StillYielded(r, r', j, v.contents[j - v.removed]);
        } else {
          assert r'.iter.Suspended? && j == Reached(r') - 1;
          assert r'.yielded[|r'.yielded| - 1] == Yielded(j, v.contents[j - v.removed], v.removed);
        }
      }
    }
  }

  /** In every run, the iterator yields in turn and misses nothing that is still in the queue. */
  lemma {:induction false} EveryRunKeepsInv<T>(xs: seq<T>, ops: seq<Op<T>>)
    ensures RunInv(Steps(Start(xs), ops))
    decreases |ops|
  {
    if ops != [] {
      EveryRunKeepsInv(xs, ops[..|ops| - 1]);
      StepKeepsInv(Steps(Start(xs), ops[..|ops| - 1]), ops[|ops| - 1]);
    }
  }

  lemma {:induction false} YieldsAscend<T>(r: Run<T>, i: nat, k: nat)
    requires InTurn(r) && i < k < |r.yielded|
    ensures r.yielded[i].index < r.yielded[k].index
    decreases k - i
  {
    assert InTurnAt(r, k);
    if i + 1 < k {
      YieldsAscend(r, i, k - 1);
    }
  }

  /** No element is yielded twice, and the yields come in queue order, whatever happens in between. */
  lemma IterationIsOrdered<T>(xs: seq<T>, ops: seq<Op<T>>, i: nat, k: nat)
    requires i < k < |Steps(Start(xs), ops).yielded|
    ensures Steps(Start(xs), ops).yielded[i].index < Steps(Start(xs), ops).yielded[k].index
  {
    EveryRunKeepsInv(xs, ops);
    YieldsAscend(Steps(Start(xs), ops), i, k);
  }

  /**
   What the iterator passes without yielding it had left by the front before its turn: for every
   index from where it began to where it got, either it was yielded, or a later one was, at a time
   when the front was already beyond it.
   */
  lemma IterationSkipsOnlyRemoved<T>(xs: seq<T>, ops: seq<Op<T>>, j: int)
    requires var r := Steps(Start(xs), ops); r.begin <= j < Reached(r)
    ensures var r := Steps(Start(xs), ops);
            exists k :: 0 <= k < |r.yielded| &&
              (r.yielded[k].index == j || (j < r.yielded[k].removed && j < r.yielded[k].index))
  {
    EveryRunKeepsInv(xs, ops);
    var r := Steps(Start(xs), ops);
    var k := FirstPast(r, j, |r.yielded| - 1);
  }

  /** The first yield at or past index `j`. */
  lemma {:induction false} FirstPast<T>(r: Run<T>, j: int, n: nat) returns (k: nat)
    requires InTurn(r) && n < |r.yielded| && r.begin <= j <= r.yielded[n].index
    ensures k <= n && (r.yielded[k].index == j || (j < r.yielded[k].removed && j < r.yielded[k].index))
    decreases n
  {
    if n > 0 && j <= r.yielded[n - 1].index {
      k := FirstPast(r, j, n - 1);
    } else {
      k := n;
      assert InTurnAt(r, k);
    }
  }

  /** When the iterator finishes, every element in the queue that was not put back was yielded. */
  lemma IterationIsComplete<T>(xs: seq<T>, ops: seq<Op<T>>, j: int)
    requires var r := Steps(Start(xs), ops);
             && !r.iter.Finished? && Next(r.view, r.iter).1 == None
             && Live(r.view, j) && Step(r, Resume).begin <= j && j !in Step(r, Resume).back
    ensures var r := Steps(Start(xs), ops);
            WasYielded(Step(r, Resume), j, r.view.contents[j - r.view.removed])
  {
    EveryRunKeepsInv(xs, ops);
    ResumeKeepsInv(Steps(Start(xs), ops));
  }
}
