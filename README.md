# Peekable: a one-item lookahead stream adapter, in Dafny

This project models `Peekable` from `futures-util/src/stream/peek.rs` in
futures-rs. It proves the properties of that model. `Peekable` wraps a
stream in a fuse and keeps a one-slot cache (`peeked`):

- `peek` shows the next item without consuming it. It polls the fused
  upstream only when the cache is empty, and stores the item it gets.
- `poll_next` hands out the cached item first. It polls the fused upstream
  only when the cache is empty, and passes its answer on unchanged.

The model has three modules:

- `StreamCore` (`stream_core.dfy`) holds the poll protocol: `Poll<T>` with
  `Pending` and `Ready`, and `Option<T>`. It also holds `Source`, the
  upstream stream. `Source` is driven by a script: the answer to its i-th
  poll is `script(i)`. The script is an arbitrary total function, so a
  `Source` can stay pending, produce items after it has ended, or do
  anything else a stream may do.
- `FuseAdapter` (`fuse.dfy`) holds the fuse that `Peekable::new` wraps the
  upstream in (peek.rs:27). Its source is not part of this model. It is
  modelled on the contract `Peekable` relies on: it forwards polls until the
  upstream first reports end, and from then on reports end itself without
  polling the upstream. `EndSeen` and `FusedItems` describe a window of
  upstream polls. `FusedItems` is the upstream's items, in order, up to its
  first end. The lemmas say that this list only grows by appending, that
  nothing is added after end, and that it holds every item produced before
  end and nothing else.
- `PeekAdapter` (`peek.dfy`) holds the class `Peekable`. It has the fuse,
  the cache and a ghost record `delivered` of the items `PollNext` has
  handed out. Its invariant `Valid()` says two things. The handed-out items
  followed by the cached one are exactly `FusedItems` so far. The cache is
  never filled once the fuse has seen end. Each of `Peek` and `PollNext`
  keeps this invariant, so it holds for any interleaving of calls. It is
  the ordering property: every upstream item comes out once, in order.
  `ExhaustedDeliversAll` says that once the adapter has ended, `delivered`
  is the complete item list. `Scenario` drives the adapter over an
  upstream that is pending, then yields 1 and 2, then ends. It shows that
  seven calls poll the upstream four times. It runs in three phases:
  `ScenarioFirstItem`, `ScenarioSecondItem` and `ScenarioEnd`.

## Model

| member | source | states |
|---|---|---|
| `StreamCore.Source.PollNext` | futures-util/src/stream/peek.rs:43 | one poll of the upstream stream answers its next scripted result and advances its cursor by one |
| `FuseAdapter.FusedItems` | futures-util/src/stream/peek.rs:27 | the items a fuse passes on from a window of upstream polls are at most one per poll |
| `FuseAdapter.EndSeenWitness` | futures-util/src/stream/peek.rs:27 | the fuse's record of end holds exactly when some upstream poll in the window answered end |
| `FuseAdapter.EndSeenStays` | futures-util/src/stream/peek.rs:27 | once the fuse has seen end it stays ended, whatever further polls happen |
| `FuseAdapter.FusedItemsPrefix` | futures-util/src/stream/peek.rs:27 | more polls only append items: the earlier item list is a prefix of the later one |
| `FuseAdapter.FusedItemsFinal` | futures-util/src/stream/peek.rs:27 | after the upstream's first end, no further poll adds an item, even if the raw upstream would produce one |
| `FuseAdapter.FusedItemsComplete` | futures-util/src/stream/peek.rs:27 | every item the upstream produces before its first end is passed on, right after the items produced before it |
| `FuseAdapter.FusedItemsSound` | futures-util/src/stream/peek.rs:27 | every item passed on was produced by some upstream poll before the first end |
| `FuseAdapter.FusedItemsCount` | futures-util/src/stream/peek.rs:27 | the number of items passed on equals the number of upstream polls that answered an item before the first end, so with the two lemmas above each such item is passed on exactly once |
| `FuseAdapter.Fuse.constructor` | futures-util/src/stream/peek.rs:27 | a fresh fuse has not seen end, has passed on nothing and has not polled the upstream |
| `FuseAdapter.Fuse.PollNext` | futures-util/src/stream/peek.rs:27 | before end, the fuse answers one upstream poll; after end, it answers end without polling; it records end the first time it sees it; the items passed on grow by what it answered |
| `PeekAdapter.Peekable.constructor` | futures-util/src/stream/peek.rs:25-30 | `new` wraps the stream in a fresh fuse; the cache is empty and no poll is made |
| `PeekAdapter.Peekable.Peek` | futures-util/src/stream/peek.rs:36-50 | with a filled cache, answers the cached item and changes nothing; with an empty cache, answers one fused poll and caches an item it gets; pending and end leave the cache empty; the item answered is the cached one; at most one upstream poll; end is absorbing |
| `PeekAdapter.Peekable.PollNext` | futures-util/src/stream/peek.rs:56-64 | with a filled cache, answers the cached item and empties the cache without polling; with an empty cache, answers exactly one fused poll; the cache is empty afterwards; the handed-out items grow by the answer; end is absorbing |
| `PeekAdapter.ExhaustedDeliversAll` | futures-util/src/stream/peek.rs:56-64 | once the adapter has ended, the items handed out are all of the upstream's items before its first end, once each and in order, and later polls add nothing |
| `PeekAdapter.PeekTwice` | futures-util/src/stream/peek.rs:40-47 | after a peek shows an item, a second peek shows the same item; the two peeks poll the upstream at most once |
| `PeekAdapter.PeekThenNext` | futures-util/src/stream/peek.rs:45-47 | when a peek shows an item, the following `PollNext` returns that item from the cache and empties the cache; across both calls the upstream is polled once if the cache started empty and not at all otherwise, so the `PollNext` itself never polls |
| `PeekAdapter.ScenarioFirstItem` | futures-util/src/stream/peek.rs:40-61 | with the upstream pending once and then yielding 1: a peek answers pending and leaves the cache empty; the next peek answers 1 and caches it; `PollNext` answers 1 from the cache; two upstream polls in all |
| `PeekAdapter.ScenarioSecondItem` | futures-util/src/stream/peek.rs:40-61 | with the upstream yielding 2: a peek answers 2, and `PollNext` answers 2 from the cache; one upstream poll in all |
| `PeekAdapter.ScenarioEnd` | futures-util/src/stream/peek.rs:56-64 | with an empty cache and the upstream ending: `PollNext` answers end, and a second `PollNext` answers end again without polling the upstream |
| `PeekAdapter.Scenario` | futures-util/src/stream/peek.rs:36-64 | over an upstream that is pending, then yields 1 and 2, then ends: the calls peek, peek, next, peek, next, next, next answer pending, 1, 1, 2, 2, end, end, with four upstream polls |

## Left out

- The `task::Context` argument and waker registration are not modelled. The adapter only passes `Pending` through, and the model does the same with a plain `Pending` value.
- Pinning is not modelled: `PinMut`, the `unsafe_pinned!`/`unsafe_unpinned!` projections (peek.rs:22-23) and the `Unpin` impl (peek.rs:19). The fields are used directly.
- `PeekAdapter.Peekable.Peek` returns the cached item by value, not by reference. In its place, its contract says the cache holds the item it returned. The borrow that stops a caller from keeping the reference across a later `poll_next` has no counterpart.
- Ownership is not enforced. `Peekable::new` takes the stream by move. In the model, a caller could still poll the `Source` object directly after wrapping it.
- The fuse's own implementation is not part of this model. `FuseAdapter.Fuse` models only the contract that peek.rs relies on.
- The commented-out `Sink` forwarding (peek.rs:67-77) is not implemented in the source, so it is not modelled.
- The `#[derive(Debug)]` and `#[must_use]` attributes (peek.rs:12-13) have no behaviour to model.
- `futures/tests/futures_ordered.rs` tests `FuturesOrdered` through channels and executors. `FuturesOrdered` is not part of this model.
