/** The poll protocol a stream speaks, and the upstream stream the adapters
    wrap. A poll answers `Pending` (not ready yet; the stream itself arranges
    to be woken), `Ready(Some(item))` or `Ready(None)` (end of stream). */
module StreamCore {

  datatype Option<T> = None | Some(value: T)

  /** The result of one attempt to make progress. */
  datatype Poll<T> = Pending | Ready(value: T)

  /** The items one poll result hands to the consumer: one item, or none. */
  function Emitted<T>(r: Poll<Option<T>>): seq<T>
  {
    if r.Ready? && r.value.Some? then [r.value.value] else []
  }

  /** The cache of a lookahead adapter as the sequence of items it holds. */
  function Held<T>(o: Option<T>): seq<T>
  {
    if o.Some? then [o.value] else []
  }

  /** An arbitrary upstream stream. Its behaviour is fixed by `script`:
      the answer to its i-th poll is `script(i)`. Nothing constrains the
      script, so the stream may produce items after reporting end, or stay
      pending for ever; the fuse is what tames it. */
  class Source<T> {
    const script: nat -> Poll<Option<T>>
    /** Number of polls this stream has answered so far. */
    var pos: nat

    constructor (script: nat -> Poll<Option<T>>)
      ensures this.script == script && pos == 0
    {
      this.script := script;
      pos := 0;
    }

    /** One poll: answers the next scripted result and advances. */
    method PollNext() returns (r: Poll<Option<T>>)
      modifies this
      ensures r == script(old(pos)) && pos == old(pos) + 1
    {
      r := script(pos);
      pos := pos + 1;
    }
  }
}
