/**
 * Text that arrives in chunks and is handed on unit by unit. The lexer says which unit a buffer begins with;
 * the processor is whatever consumes a unit and may raise.
 */
module IncrementalReader {
  import opened Sequences

  /** What a buffer begins with: nothing but noise, an unfinished unit, or a unit and the text after it. */
  datatype Head = Blank | Unfinished(text: string) | Unit(unit: string, rest: string)

  ghost predicate Consumes(next: string -> Head) {
    forall s :: next(s).Unit? ==> |next(s).rest| < |s|
  }

  type Lexer = next: string -> Head | Consumes(next) witness (s: string) => Blank

  type Processor<!S, !E> = (S, string) -> (S, Option<E>)

  /** The consumer's state, the text not yet consumed, and the exception raised, if any. */
  datatype Progress<S, E> = Progress(state: S, buffer: string, error: Option<E>)

  /** Hand on every complete unit of the buffer, in order, until one raises. */
  function Drain<S, E>(next: Lexer, process: Processor<S, E>, state: S, buffer: string): Progress<S, E>
    decreases |buffer|
  {
    match next(buffer)
    case Blank => Progress(state, "", None)
    case Unfinished(text) => Progress(state, text, None)
    case Unit(unit, rest) =>
      var (after, error) := process(state, unit);
      if error.Some? then Progress(after, rest, error) else Drain(next, process, after, rest)
  }

  /** Chunks fed one after the other, an empty one being ignored, until one raises. */
  function FeedAll<S, E>(next: Lexer, process: Processor<S, E>, state: S, buffer: string, chunks: seq<string>)
    : Progress<S, E>
    decreases |chunks|
  {
    if chunks == [] then Progress(state, buffer, None)
    else if chunks[0] == "" then FeedAll(next, process, state, buffer, chunks[1..])
    else
      var d := Drain(next, process, state, buffer + chunks[0]);
      if d.error.Some? then d else FeedAll(next, process, d.state, d.buffer, chunks[1..])
  }

  /** Reading `a` first and `b` later meets the same head as reading `a + b`. */
  predicate Resumes(next: Lexer, good: string -> bool, a: string, b: string) {
    match next(a)
    case Blank => next(a + b) == next(b) && good(b)
    case Unfinished(text) => next(a + b) == next(text + b) && good(text + b) && next(text) == Unfinished(text)
    case Unit(unit, rest) => next(a + b) == Unit(unit, rest + b) && good(rest + b)
  }

  /** On good texts no cut changes what the lexer finds. */
  ghost predicate CutSafe(next: Lexer, good: string -> bool) {
    next("").Blank? && forall a, b {:trigger Resumes(next, good, a, b)} :: good(a + b) ==> Resumes(next, good, a, b)
  }

  predicate Settled(next: Lexer, buffer: string) {
    buffer == "" || next(buffer) == Unfinished(buffer)
  }

  /** Draining `a + b` is draining `a`, then `b` behind whatever `a` left in the buffer. */
  lemma {:induction false} DrainSplit<S, E>(
    next: Lexer, good: string -> bool, process: Processor<S, E>, state: S, a: string, b: string)
    requires CutSafe(next, good) && good(a + b)
    ensures var d := Drain(next, process, state, a);
            var whole := Drain(next, process, state, a + b);
            if d.error.Some? then whole == d.(buffer := d.buffer + b)
            else whole == Drain(next, process, d.state, d.buffer + b) && good(d.buffer + b) && Settled(next, d.buffer)
    decreases |a|
  {
    assert Resumes(next, good, a, b);
    match next(a)
    case Blank =>
      assert "" + b == b;
    case Unfinished(text) =>
    case Unit(unit, rest) =>
      var (after, error) := process(state, unit);
      if error.None? {
        DrainSplit(next, good, process, after, rest, b);
      }
  }

  lemma {:induction false} FeedAllIsDrain<S, E>(
    next: Lexer, good: string -> bool, process: Processor<S, E>, state: S, buffer: string, chunks: seq<string>)
    requires CutSafe(next, good) && Settled(next, buffer) && good(buffer + Concat(chunks))
    ensures var parts := FeedAll(next, process, state, buffer, chunks);
            var whole := Drain(next, process, state, buffer + Concat(chunks));
            parts.state == whole.state && parts.error == whole.error
            && (parts.error.None? ==> parts.buffer == whole.buffer)
    decreases |chunks|
  {
    if chunks == [] {
      assert buffer + Concat(chunks) == buffer;
    } else {
      var c, rest := chunks[0], chunks[1..];
      assert chunks == [c] + rest;
      ConcatAppend([c], rest);
      assert Concat([c]) == c;
      assert buffer + Concat(chunks) == (buffer + c) + Concat(rest);
      if c == "" {
        assert buffer + c == buffer;
        FeedAllIsDrain(next, good, process, state, buffer, rest);
      } else {
        DrainSplit(next, good, process, state, buffer + c, Concat(rest));
        var d := Drain(next, process, state, buffer + c);
        if d.error.None? {
          FeedAllIsDrain(next, good, process, d.state, d.buffer, rest);
        }
      }
    }
  }

  /** Any two chunkings of one good text leave the consumer in the same state, or raise the same error. */
  lemma ChunkingIsInvisible<S, E>(
    next: Lexer, good: string -> bool, process: Processor<S, E>, state: S, one: seq<string>, other: seq<string>)
    requires CutSafe(next, good) && Concat(one) == Concat(other) && good(Concat(one))
    ensures var x := FeedAll(next, process, state, "", one);
            var y := FeedAll(next, process, state, "", other);
            x.state == y.state && x.error == y.error && (x.error.None? ==> x.buffer == y.buffer)
  {
    assert "" + Concat(one) == Concat(one);
    FeedAllIsDrain(next, good, process, state, "", one);
    FeedAllIsDrain(next, good, process, state, "", other);
  }

  // ----- Going on after an exception -----

  /**
   * Chunks fed one after the other although some may raise: what the first part of a chunk did stays done, the
   * rest waits in the buffer, and the next chunk goes on from there. The error is that of the last chunk.
   */
  function Delivered<S, E>(next: Lexer, process: Processor<S, E>, state: S, chunks: seq<string>): Progress<S, E> {
    if chunks == [] then Progress(state, "", None)
    else
      var d := Delivered(next, process, state, chunks[..|chunks| - 1]);
      FeedAll(next, process, d.state, d.buffer, [chunks[|chunks| - 1]])
  }

  lemma {:induction false} FeedAllAdd<S, E>(
    next: Lexer, process: Processor<S, E>, state: S, buffer: string, chunks: seq<string>, chunk: string)
    ensures var d := FeedAll(next, process, state, buffer, chunks);
            FeedAll(next, process, state, buffer, chunks + [chunk])
            == if d.error.Some? then d else FeedAll(next, process, d.state, d.buffer, [chunk])
    decreases |chunks|
  {
    if chunks == [] {
      assert chunks + [chunk] == [chunk];
    } else {
      assert (chunks + [chunk])[1..] == chunks[1..] + [chunk];
      var d := Drain(next, process, state, buffer + chunks[0]);
      if chunks[0] == "" {
        FeedAllAdd(next, process, state, buffer, chunks[1..], chunk);
      } else if d.error.None? {
        FeedAllAdd(next, process, d.state, d.buffer, chunks[1..], chunk);
      }
    }
  }

  /** Where nothing raises, going on and stopping are the same; and stopping raises as soon as any chunk does. */
  lemma {:induction false} DeliveredWithoutError<S, E>(
    next: Lexer, process: Processor<S, E>, state: S, chunks: seq<string>)
    ensures var d := FeedAll(next, process, state, "", chunks);
            d.error.None? ==>
              Delivered(next, process, state, chunks) == d
              && forall k :: 0 <= k <= |chunks| ==> Delivered(next, process, state, chunks[..k]).error.None?
  {
    if chunks == [] {
      assert chunks[..0] == [];
    } else {
      var init, last := chunks[..|chunks| - 1], chunks[|chunks| - 1];
      assert chunks == init + [last];
      FeedAllAdd(next, process, state, "", init, last);
      DeliveredWithoutError(next, process, state, init);
      forall k | 0 <= k <= |chunks| && FeedAll(next, process, state, "", chunks).error.None?
        ensures Delivered(next, process, state, chunks[..k]).error.None?
      {
        if k < |chunks| {
          assert chunks[..k] == init[..k];
        } else {
          assert chunks[..k] == chunks;
        }
      }
    }
  }

  // ----- The units met -----

  /** The consumer applied to the units one by one, stopping at the first error. */
  function ProcessAll<S, E>(process: Processor<S, E>, state: S, units: seq<string>): (S, Option<E>) {
    if units == [] then (state, None)
    else
      var (after, error) := process(state, units[0]);
      if error.Some? then (after, error) else ProcessAll(process, after, units[1..])
  }

  /** The units a drain hands on, one that raises included. */
  function UnitsDrained<S, E>(next: Lexer, process: Processor<S, E>, state: S, buffer: string): seq<string>
    decreases |buffer|
  {
    match next(buffer)
    case Blank => []
    case Unfinished(_) => []
    case Unit(unit, rest) =>
      var (after, error) := process(state, unit);
      [unit] + if error.Some? then [] else UnitsDrained(next, process, after, rest)
  }

  /** The units met while the chunks are fed. */
  function UnitsFed<S, E>(
    next: Lexer, process: Processor<S, E>, state: S, buffer: string, chunks: seq<string>): seq<string>
    decreases |chunks|
  {
    if chunks == [] then []
    else if chunks[0] == "" then UnitsFed(next, process, state, buffer, chunks[1..])
    else
      var d := Drain(next, process, state, buffer + chunks[0]);
      UnitsDrained(next, process, state, buffer + chunks[0])
      + if d.error.Some? then [] else UnitsFed(next, process, d.state, d.buffer, chunks[1..])
  }

  lemma {:induction false} DrainIsProcessing<S, E>(next: Lexer, process: Processor<S, E>, state: S, buffer: string)
    ensures var d := Drain(next, process, state, buffer);
            (d.state, d.error) == ProcessAll(process, state, UnitsDrained(next, process, state, buffer))
    decreases |buffer|
  {
    match next(buffer)
    case Blank =>
    case Unfinished(_) =>
    case Unit(unit, rest) =>
      var (after, error) := process(state, unit);
      if error.None? {
        DrainIsProcessing(next, process, after, rest);
      }
  }

  lemma {:induction false} ProcessAllAppend<S, E>(process: Processor<S, E>, state: S, a: seq<string>, b: seq<string>)
    ensures var (after, error) := ProcessAll(process, state, a);
            ProcessAll(process, state, a + b)
            == if error.Some? then (after, error) else ProcessAll(process, after, b)
  {
    if a == [] {
      assert a + b == b;
    } else {
      assert (a + b)[1..] == a[1..] + b;
      ProcessAllAppend(process, process(state, a[0]).0, a[1..], b);
    }
  }

  /** Feeding chunks is processing the units met, in order, until one raises. */
  lemma {:induction false} FeedingIsProcessing<S, E>(
    next: Lexer, process: Processor<S, E>, state: S, buffer: string, chunks: seq<string>)
    ensures var d := FeedAll(next, process, state, buffer, chunks);
            (d.state, d.error) == ProcessAll(process, state, UnitsFed(next, process, state, buffer, chunks))
    decreases |chunks|
  {
    if chunks != [] {
      if chunks[0] == "" {
        FeedingIsProcessing(next, process, state, buffer, chunks[1..]);
      } else {
        var text := buffer + chunks[0];
        var d := Drain(next, process, state, text);
        DrainIsProcessing(next, process, state, text);
        var first := UnitsDrained(next, process, state, text);
        if d.error.None? {
          FeedingIsProcessing(next, process, d.state, d.buffer, chunks[1..]);
          ProcessAllAppend(process, state, first, UnitsFed(next, process, d.state, d.buffer, chunks[1..]));
        } else {
          assert first + [] == first;
        }
      }
    }
  }

  // ----- Invariants of the consumer -----

  /** Every unit keeps `inv`, and raises only errors that `allowed` admits. */
  ghost predicate Keeps<S(!new), E>(process: Processor<S, E>, inv: S -> bool, allowed: E -> bool) {
    forall state, unit {:trigger process(state, unit)} :: inv(state) ==>
      var (after, error) := process(state, unit);
      inv(after) && (error.Some? ==> allowed(error.value))
  }

  lemma {:induction false} DrainKeeps<S(!new), E>(
    next: Lexer, process: Processor<S, E>, inv: S -> bool, allowed: E -> bool, state: S, buffer: string)
    requires Keeps(process, inv, allowed) && inv(state)
    ensures var d := Drain(next, process, state, buffer);
            inv(d.state) && (d.error.Some? ==> allowed(d.error.value))
    decreases |buffer|
  {
    match next(buffer)
    case Blank =>
    case Unfinished(text) =>
    case Unit(unit, rest) =>
      var (after, error) := process(state, unit);
      if error.None? {
        DrainKeeps(next, process, inv, allowed, after, rest);
      }
  }

  lemma {:induction false} FeedAllKeeps<S(!new), E>(
    next: Lexer, process: Processor<S, E>, inv: S -> bool, allowed: E -> bool, state: S, buffer: string,
      chunks: seq<string>)
    requires Keeps(process, inv, allowed) && inv(state)
    ensures var d := FeedAll(next, process, state, buffer, chunks);
            inv(d.state) && (d.error.Some? ==> allowed(d.error.value))
    decreases |chunks|
  {
    if chunks != [] {
      if chunks[0] == "" {
        FeedAllKeeps(next, process, inv, allowed, state, buffer, chunks[1..]);
      } else {
        DrainKeeps(next, process, inv, allowed, state, buffer + chunks[0]);
        var d := Drain(next, process, state, buffer + chunks[0]);
        if d.error.None? {
          FeedAllKeeps(next, process, inv, allowed, d.state, d.buffer, chunks[1..]);
        }
      }
    }
  }

  lemma {:induction false} DeliveredKeeps<S(!new), E>(
    next: Lexer, process: Processor<S, E>, inv: S -> bool, allowed: E -> bool, state: S, chunks: seq<string>)
    requires Keeps(process, inv, allowed) && inv(state)
    ensures var d := Delivered(next, process, state, chunks);
            inv(d.state) && (d.error.Some? ==> allowed(d.error.value))
  {
    if chunks != [] {
      DeliveredKeeps(next, process, inv, allowed, state, chunks[..|chunks| - 1]);
      var d := Delivered(next, process, state, chunks[..|chunks| - 1]);
      FeedAllKeeps(next, process, inv, allowed, d.state, d.buffer, [chunks[|chunks| - 1]]);
    }
  }
}
