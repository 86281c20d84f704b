/** `Peekable`: a stream adapter with a one-item lookahead. It owns a fused
    upstream and a one-slot cache; `Peek` fills the cache from at most one
    upstream poll and shows the cached item without consuming it, and
    `PollNext` drains the cache before it falls through to the upstream. */
module PeekAdapter {
  import opened StreamCore
  import opened FuseAdapter

  class Peekable<T> {
    const stream: Fuse<T>
    var peeked: Option<T>
    /** The items `PollNext` has handed out so far, oldest first. */
    ghost var delivered: seq<T>

    /** The object invariant. The cache is only filled by an item, which the
        fuse never produces after end; and the items handed out followed by
        the cached one are exactly the upstream's items so far, in order. */
    ghost predicate Valid()
      reads this, stream, stream.inner
    {
      stream.Valid()
      && (peeked.Some? ==> !stream.done)
      && delivered + Held(peeked) == stream.Items()
    }

    /** The end state: the fuse has seen end and no item is cached. */
    ghost predicate Terminated()
      reads this, stream
    {
      stream.done && peeked.None?
    }

    /** Wraps `source` in a fuse; the cache starts empty and nothing is polled. */
    constructor (source: Source<T>)
      ensures Valid() && fresh(stream)
      ensures stream.inner == source && !stream.done && stream.base == source.pos
      ensures peeked == None && delivered == []
      ensures unchanged(source)
    {
      stream := new Fuse(source);
      peeked := None;
      delivered := [];
    }

    /** Shows the next item without consuming it. With a filled cache it
        answers the cached item and touches nothing; otherwise it polls the
        fused upstream once, passing `Pending` and end through and caching
        an item it gets. The item answered is the one left in the cache. */
    method Peek() returns (r: Poll<Option<T>>)
      requires Valid()
      modifies this, stream, stream.inner
      ensures Valid() && delivered == old(delivered)
      ensures r.Ready? && r.value.Some? ==> peeked == r.value
      ensures old(peeked).Some? ==>
                r == Ready(old(peeked)) && peeked == old(peeked)
                && unchanged(stream, stream.inner)
      ensures old(peeked).None? ==>
                r == NextFused(stream.inner.script, old(stream.inner.pos), old(stream.done))
                && (r.Pending? ==> peeked == None)
      ensures stream.inner.pos == if old(peeked).None? && !old(stream.done)
                                  then old(stream.inner.pos) + 1 else old(stream.inner.pos)
      ensures stream.done <==> old(stream.done) || r == Ready(None)
      ensures r == Ready(None) ==> Terminated()
      ensures old(Terminated()) ==> r == Ready(None) && unchanged(this, stream, stream.inner)
    {
      if peeked.Some? {
        return Ready(peeked);
      }
      r := stream.PollNext();
      if r.Ready? && r.value.Some? {
        peeked := Some(r.value.value);
      }
    }

    /** Produces the next item: the cached one if there is one, without
        polling; otherwise exactly what one poll of the fused upstream
        answers. Either way the cache is empty afterwards. */
    method PollNext() returns (r: Poll<Option<T>>)
      requires Valid()
      modifies this, stream, stream.inner
      ensures Valid() && peeked == None
      ensures delivered == old(delivered) + Emitted(r)
      ensures old(peeked).Some? ==> r == Ready(old(peeked)) && unchanged(stream, stream.inner)
      ensures old(peeked).None? ==>
                r == NextFused(stream.inner.script, old(stream.inner.pos), old(stream.done))
      ensures stream.inner.pos == if old(peeked).None? && !old(stream.done)
                                  then old(stream.inner.pos) + 1 else old(stream.inner.pos)
      ensures stream.done <==> old(stream.done) || r == Ready(None)
      ensures r == Ready(None) ==> Terminated()
      ensures old(Terminated()) ==> r == Ready(None) && unchanged(stream, stream.inner)
    {
      if peeked.Some? {
        r := Ready(peeked);
        peeked := None;
        delivered := delivered + [r.value.value];
        return;
      }
      r := stream.PollNext();
      delivered := delivered + Emitted(r);
    }
  }

  /** Once the adapter is exhausted, what `PollNext` has handed out is every
      item the upstream produced before its first end, each once and in
      order, and no later poll adds to it: whatever the interleaving of
      `Peek` and `PollNext` calls was. */
  lemma ExhaustedDeliversAll<T>(p: Peekable<T>, later: nat)
    requires p.Valid() && p.Terminated() && p.stream.inner.pos <= later
    ensures p.delivered == FusedItems(p.stream.inner.script, p.stream.base, later)
  {
    FusedItemsFinal(p.stream.inner.script, p.stream.base, p.stream.inner.pos, later);
  }

  /** Two peeks with no `PollNext` between them: once the first one has
      shown an item, the second shows the same item and the upstream is
      polled at most once across both. */
  method PeekTwice<T>(p: Peekable<T>) returns (first: Poll<Option<T>>, second: Poll<Option<T>>)
    requires p.Valid()
    modifies p, p.stream, p.stream.inner
    ensures p.Valid() && p.delivered == old(p.delivered)
    ensures first.Ready? && first.value.Some? ==>
              second == first && p.peeked == first.value
              && p.stream.inner.pos <= old(p.stream.inner.pos) + 1
  {
    first := p.Peek();
    second := p.Peek();
  }

  /** A peek that shows an item followed by `PollNext`: the item comes out
      of the cache, the cache is empty again, and the upstream is not polled
      by the `PollNext`. */
  method PeekThenNext<T>(p: Peekable<T>) returns (shown: Poll<Option<T>>, taken: Poll<Option<T>>)
    requires p.Valid()
    modifies p, p.stream, p.stream.inner
    ensures p.Valid() && p.peeked == None
    ensures shown.Ready? && shown.value.Some? ==>
              taken == shown && p.delivered == old(p.delivered) + [shown.value.value]
              && p.stream.inner.pos == old(p.stream.inner.pos) + (if old(p.peeked).None? then 1 else 0)
  {
    shown := p.Peek();
    ghost var polled := p.stream.inner.pos;
    taken := p.PollNext();
    assert shown.Ready? && shown.value.Some? ==> p.stream.inner.pos == polled;
  }

  /** An upstream that is pending once, then yields 1 and 2, then ends. */
  function Scripted(i: nat): Poll<Option<int>>
  {
    if i == 0 then Pending
    else if i == 1 then Ready(Some(1))
    else if i == 2 then Ready(Some(2))
    else Ready(None)
  }

  /** The adapter over `Scripted` before any call: nothing polled, cache empty. */
  ghost predicate FreshOverScripted(p: Peekable<int>, source: Source<int>)
    reads p, p.stream, source
  {
    p.stream.inner == source && source.script == Scripted
    && p.peeked == None && !p.stream.done
  }

  /** Steps 1 to 3 of `Scenario`: peek while the upstream is pending, peek
      again once it yields 1, then take 1 out of the cache. */
  method ScenarioFirstItem(p: Peekable<int>, source: Source<int>)
    returns (a1: Poll<Option<int>>, a2: Poll<Option<int>>, a3: Poll<Option<int>>)
    requires p.Valid() && FreshOverScripted(p, source) && source.pos == 0
    modifies p, p.stream, source
    ensures p.Valid() && FreshOverScripted(p, source) && source.pos == 2
    ensures a1 == Pending && a2 == Ready(Some(1)) && a3 == Ready(Some(1))
  {
    assert source.script(0) == Pending && source.script(1) == Ready(Some(1));
    a1 := p.Peek();
    assert source.pos == 1 && p.peeked == None && !p.stream.done;
    a2 := p.Peek();
    assert source.pos == 2 && p.peeked == Some(1);
    a3 := p.PollNext();
  }

  /** Steps 4 and 5 of `Scenario`: peek at 2, then take it out of the cache. */
  method ScenarioSecondItem(p: Peekable<int>, source: Source<int>)
    returns (a4: Poll<Option<int>>, a5: Poll<Option<int>>)
    requires p.Valid() && FreshOverScripted(p, source) && source.pos == 2
    modifies p, p.stream, source
    ensures p.Valid() && FreshOverScripted(p, source) && source.pos == 3
    ensures a4 == Ready(Some(2)) && a5 == Ready(Some(2))
  {
    assert source.script(2) == Ready(Some(2));
    a4 := p.Peek();
    assert source.pos == 3 && p.peeked == Some(2);
    a5 := p.PollNext();
  }

  /** Steps 6 and 7 of `Scenario`: the upstream ends, and end repeats
      without another upstream poll. */
  method ScenarioEnd(p: Peekable<int>, source: Source<int>)
    returns (a6: Poll<Option<int>>, a7: Poll<Option<int>>)
    requires p.Valid() && FreshOverScripted(p, source) && source.pos == 3
    modifies p, p.stream, source
    ensures p.Valid() && p.Terminated() && source.pos == 4
    ensures a6 == Ready(None) && a7 == Ready(None)
  {
    assert source.script(3) == Ready(None);
    a6 := p.PollNext();
    assert source.pos == 4 && p.Terminated();
    a7 := p.PollNext();
  }

  /** Drives the adapter over `Scripted` with peek, peek, next, peek, next,
      next, next, and reports each answer and how often the upstream was
      polled: the seven calls poll it only four times. */
  method Scenario() returns (answers: seq<Poll<Option<int>>>, polls: nat)
    ensures answers == [Pending, Ready(Some(1)), Ready(Some(1)), Ready(Some(2)),
                        Ready(Some(2)), Ready(None), Ready(None)]
    ensures polls == 4
  {
    var source := new Source(Scripted);
    var p := new Peekable(source);
    var a1, a2, a3 := ScenarioFirstItem(p, source);
    var a4, a5 := ScenarioSecondItem(p, source);
    var a6, a7 := ScenarioEnd(p, source);
    answers := [a1, a2, a3, a4, a5, a6, a7];
    polls := source.pos;
  }
}
