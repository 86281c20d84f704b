/** The contract of the fuse decorator that `Peekable` wraps its upstream in:
    it forwards polls until the upstream first reports end, and from then on
    reports end itself without polling the upstream again.

    The specification functions look at the upstream's script over the
    window of polls `[lo, hi)` made since the fuse was created. */
module FuseAdapter {
  import opened StreamCore

  /** Has the upstream reported end in one of the polls `lo .. hi-1`? */
  ghost predicate EndSeen<T>(script: nat -> Poll<Option<T>>, lo: nat, hi: nat)
    requires lo <= hi
    decreases hi - lo
  {
    hi > lo && (EndSeen(script, lo, hi - 1) || script(hi - 1) == Ready(None))
  }

  /** The items the fused stream has passed on after the upstream polls
      `lo .. hi-1`: the upstream's items, in order, up to its first end. */
  ghost function FusedItems<T>(script: nat -> Poll<Option<T>>, lo: nat, hi: nat): (items: seq<T>)
    requires lo <= hi
    ensures |items| <= hi - lo
    decreases hi - lo
  {
    if hi == lo then []
    else if EndSeen(script, lo, hi - 1) then FusedItems(script, lo, hi - 1)
    else FusedItems(script, lo, hi - 1) + Emitted(script(hi - 1))
  }

  /** What one poll of a fuse in state `done`, over an upstream whose cursor
      is at `pos`, answers. */
  function NextFused<T>(script: nat -> Poll<Option<T>>, pos: nat, done: bool): Poll<Option<T>>
  {
    if done then Ready(None) else script(pos)
  }

  /** `EndSeen` means exactly that some poll of the window answered end. */
  lemma {:induction false} EndSeenWitness<T>(script: nat -> Poll<Option<T>>, lo: nat, hi: nat)
    requires lo <= hi
    ensures EndSeen(script, lo, hi) <==> exists i :: lo <= i < hi && script(i) == Ready(None)
    decreases hi - lo
  {
    if hi > lo {
      EndSeenWitness(script, lo, hi - 1);
    }
  }

  /** Once end has been seen it stays seen, however many polls follow. */
  lemma {:induction false} EndSeenStays<T>(script: nat -> Poll<Option<T>>, lo: nat, m: nat, n: nat)
    requires lo <= m <= n && EndSeen(script, lo, m)
    ensures EndSeen(script, lo, n)
    decreases n - m
  {
    if n > m {
      EndSeenStays(script, lo, m, n - 1);
    }
  }

  /** Later polls only append: what the fused stream passed on earlier is a
      prefix of what it has passed on later. */
  lemma {:induction false} FusedItemsPrefix<T>(script: nat -> Poll<Option<T>>, lo: nat, m: nat, n: nat)
    requires lo <= m <= n
    ensures FusedItems(script, lo, m) <= FusedItems(script, lo, n)
    decreases n - m
  {
    if n > m {
      FusedItemsPrefix(script, lo, m, n - 1);
    }
  }

  /** After the upstream's first end the fused stream passes on nothing more:
      whatever the upstream would produce later is never seen. */
  lemma {:induction false} FusedItemsFinal<T>(script: nat -> Poll<Option<T>>, lo: nat, m: nat, n: nat)
    requires lo <= m <= n && EndSeen(script, lo, m)
    ensures FusedItems(script, lo, n) == FusedItems(script, lo, m)
    decreases n - m
  {
    if n > m {
      FusedItemsFinal(script, lo, m, n - 1);
      EndSeenStays(script, lo, m, n - 1);
    }
  }

  /** Every item the upstream produces before its first end is passed on,
      right after the items produced before it. */
  lemma {:induction false} FusedItemsComplete<T>(script: nat -> Poll<Option<T>>, lo: nat, i: nat, hi: nat)
    requires lo <= i < hi && !EndSeen(script, lo, i)
    requires script(i).Ready? && script(i).value.Some?
    ensures FusedItems(script, lo, i) + [script(i).value.value] <= FusedItems(script, lo, hi)
  {
    assert FusedItems(script, lo, i + 1) == FusedItems(script, lo, i) + [script(i).value.value];
    FusedItemsPrefix(script, lo, i + 1, hi);
  }

  /** Every item passed on was produced by the upstream before its first end. */
  lemma {:induction false} FusedItemsSound<T>(script: nat -> Poll<Option<T>>, lo: nat, hi: nat, k: nat)
    requires lo <= hi && k < |FusedItems(script, lo, hi)|
    ensures exists i :: lo <= i < hi && !EndSeen(script, lo, i)
                        && script(i) == Ready(Some(FusedItems(script, lo, hi)[k]))
    decreases hi - lo
  {
    var prev := FusedItems(script, lo, hi - 1);
    if k < |prev| {
      FusedItemsSound(script, lo, hi - 1, k);
      FusedItemsPrefix(script, lo, hi - 1, hi);
    } else {
      var i := hi - 1;
      assert lo <= i < hi && !EndSeen(script, lo, i) && script(i) == Ready(Some(FusedItems(script, lo, hi)[k]));
    }
  }

  /** The upstream polls of the window that answered an item before the
      first end. */
  ghost function ItemPolls<T>(script: nat -> Poll<Option<T>>, lo: nat, hi: nat): set<nat>
    requires lo <= hi
  {
    set i: nat | lo <= i < hi && !EndSeen(script, lo, i) && script(i).Ready? && script(i).value.Some?
  }

  /** The fused stream passes on exactly one item per item poll before the
      first end; with `FusedItemsComplete` and `FusedItemsSound` this makes
      every such item appear once and only once. */
  lemma {:induction false} FusedItemsCount<T>(script: nat -> Poll<Option<T>>, lo: nat, hi: nat)
    requires lo <= hi
    ensures |FusedItems(script, lo, hi)| == |ItemPolls(script, lo, hi)|
    decreases hi - lo
  {
    if hi > lo {
      FusedItemsCount(script, lo, hi - 1);
      var i := hi - 1;
      if !EndSeen(script, lo, i) && script(i).Ready? && script(i).value.Some? {
        assert ItemPolls(script, lo, hi) == ItemPolls(script, lo, i) + {i};
      } else {
        assert ItemPolls(script, lo, hi) == ItemPolls(script, lo, i);
      }
    } else {
      assert ItemPolls(script, lo, hi) == {};
    }
  }

  /** The fuse itself: the upstream it owns and whether it has seen end. */
  class Fuse<T> {
    const inner: Source<T>
    var done: bool
    /** The upstream's cursor when the fuse was created. */
    ghost const base: nat

    ghost predicate Valid()
      reads this, inner
    {
      base <= inner.pos && done == EndSeen(inner.script, base, inner.pos)
    }

    /** The items the fuse has passed on so far. */
    ghost function Items(): seq<T>
      reads this, inner
      requires Valid()
    {
      FusedItems(inner.script, base, inner.pos)
    }

    constructor (stream: Source<T>)
      ensures Valid() && inner == stream && base == stream.pos
      ensures !done && Items() == []
    {
      inner := stream;
      done := false;
      base := stream.pos;
    }

    /** Polls the upstream unless it has already ended; remembers the end. */
    method PollNext() returns (r: Poll<Option<T>>)
      requires Valid()
      modifies this, inner
      ensures Valid()
      ensures r == NextFused(inner.script, old(inner.pos), old(done))
      ensures old(done) ==> unchanged(this, inner)
      ensures inner.pos == if old(done) then old(inner.pos) else old(inner.pos) + 1
      ensures done <==> old(done) || r == Ready(None)
      ensures Items() == old(Items()) + Emitted(r)
    {
      if done {
        return Ready(None);
      }
      r := inner.PollNext();
      if r == Ready(None) {
        done := true;
      }
    }
  }
}
