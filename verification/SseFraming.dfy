/** Cutting a byte stream into whole server-sent-event frames, however it arrives. */
module SseFraming {
  import opened Basics

  type Byte = bv8

  const LF: Byte := 10

  type Bytes = seq<Byte>

  /** What the protocol conversion does with some bytes: its output and its next state. */
  type Transform<!S> = (Bytes, S) -> (Bytes, S)

  // ---- Frame boundaries ----

  predicate BoundaryAt(b: Bytes, n: int) {
    2 <= n <= |b| && b[n - 2] == LF && b[n - 1] == LF
  }

  /** Nonempty and ending in an empty line. */
  predicate WholeFrames(b: Bytes) {
    BoundaryAt(b, |b|)
  }

  ghost predicate NoBoundary(b: Bytes) {
    forall n :: !BoundaryAt(b, n)
  }

  /** `n` is the end of the last boundary, or 0 when there is none. */
  ghost predicate LastBoundary(b: Bytes, n: nat) {
    (n > 0 ==> BoundaryAt(b, n)) && forall m | BoundaryAt(b, m) :: m <= n
  }

  function Cut(b: Bytes): (n: nat)
    ensures n <= |b| && LastBoundary(b, n)
  {
    if |b| < 2 then 0
    else if WholeFrames(b) then |b|
    else
      var n := Cut(b[..|b| - 1]);
      assert forall m | m < |b| :: BoundaryAt(b, m) == BoundaryAt(b[..|b| - 1], m);
      n
  }

  lemma LastBoundaryIsCut(b: Bytes, n: nat)
    requires LastBoundary(b, n)
    ensures n == Cut(b)
  {
  }

  // ---- Pushing chunks ----

  /** The translator between two pushes; `inputs` is what the transform has been given, in order. */
  datatype Flow<S> = Flow(state: S, pending: Bytes, inputs: seq<Bytes>)

  function Apply<S>(t: Transform<S>, f: Flow<S>, input: Bytes, rest: Bytes): (Bytes, Flow<S>) {
    var (out, state) := t(input, f.state);
    (out, Flow(state, rest, f.inputs + [input]))
  }

  function Pushed<S>(t: Transform<S>, f: Flow<S>, chunk: Bytes): (Bytes, Flow<S>) {
    var all := f.pending + chunk;
    if Cut(all) == 0 then ([], Flow(f.state, all, f.inputs)) else Apply(t, f, all[..Cut(all)], all[Cut(all)..])
  }

  function Finished<S>(t: Transform<S>, f: Flow<S>): (Bytes, Flow<S>) {
    if f.pending == [] then ([], f) else Apply(t, f, f.pending, [])
  }

  function Start<S>(state: S): Flow<S> {
    Flow(state, [], [])
  }

  /** The output of the first `n` pushes, and the translator after them. */
  function PushedAll<S>(t: Transform<S>, state: S, chunks: seq<Bytes>, n: nat): (Bytes, Flow<S>)
    requires n <= |chunks|
  {
    if n == 0 then ([], Start(state))
    else
      var (before, f) := PushedAll(t, state, chunks, n - 1);
      var (out, after) := Pushed(t, f, chunks[n - 1]);
      (before + out, after)
  }

  /** Everything that comes out when the stream arrives as `chunks`. */
  function Translated<S>(t: Transform<S>, state: S, chunks: seq<Bytes>): (Bytes, Flow<S>) {
    var (before, f) := PushedAll(t, state, chunks, |chunks|);
    var (out, after) := Finished(t, f);
    (before + out, after)
  }

  function Concat(parts: seq<Bytes>): Bytes {
    if parts == [] then [] else Concat(parts[..|parts| - 1]) + parts[|parts| - 1]
  }

  lemma ConcatStep(parts: seq<Bytes>, b: Bytes)
    ensures Concat(parts + [b]) == Concat(parts) + b
  {
    assert (parts + [b])[..|parts|] == parts;
  }

  // ---- What the transform sees ----

  ghost predicate AllWhole(inputs: seq<Bytes>) {
    forall i | 0 <= i < |inputs| :: WholeFrames(inputs[i])
  }

  lemma RestHasNoBoundary(b: Bytes)
    ensures NoBoundary(b[Cut(b)..])
  {
    forall n
      ensures !BoundaryAt(b[Cut(b)..], n)
    {
      if BoundaryAt(b[Cut(b)..], n) {
        assert BoundaryAt(b, Cut(b) + n);
      }
    }
  }

  /** The inputs are whole frames, no frame end is held back, and together they are what was fed. */
  ghost predicate Framed<S>(f: Flow<S>, fed: Bytes) {
    AllWhole(f.inputs) && NoBoundary(f.pending) && Concat(f.inputs) + f.pending == fed
  }

  lemma PushFraming<S>(t: Transform<S>, f: Flow<S>, fed: Bytes, chunk: Bytes)
    requires Framed(f, fed)
    ensures Framed(Pushed(t, f, chunk).1, fed + chunk)
  {
    var all := f.pending + chunk;
    RestHasNoBoundary(all);
    if Cut(all) > 0 {
      var frames := all[..Cut(all)];
      assert WholeFrames(frames);
      ConcatStep(f.inputs, frames);
      assert all == frames + all[Cut(all)..];
    } else {
      assert all[0..] == all;
    }
  }

  /** Each input from a push ends a frame, no frame end is held back, and nothing is lost, repeated or reordered. */
  lemma {:induction false} PushesKeepFraming<S>(t: Transform<S>, state: S, chunks: seq<Bytes>, n: nat)
    requires n <= |chunks|
    ensures Framed(PushedAll(t, state, chunks, n).1, Concat(chunks[..n]))
  {
    if n > 0 {
      PushesKeepFraming(t, state, chunks, n - 1);
      PushFraming(t, PushedAll(t, state, chunks, n - 1).1, Concat(chunks[..n - 1]), chunks[n - 1]);
      ConcatStep(chunks[..n - 1], chunks[n - 1]);
      assert chunks[..n] == chunks[..n - 1] + [chunks[n - 1]];
    }
  }

  /** In bytes: what a push hands over ends in two line feeds, and what is held back has no two in a row. */
  lemma PushesEndInEmptyLines<S>(t: Transform<S>, state: S, chunks: seq<Bytes>, n: nat)
    requires n <= |chunks|
    ensures var f := PushedAll(t, state, chunks, n).1;
            && (forall i | 0 <= i < |f.inputs| ::
                  |f.inputs[i]| >= 2 && f.inputs[i][|f.inputs[i]| - 2] == 10 && f.inputs[i][|f.inputs[i]| - 1] == 10)
            && forall k, l | 0 <= k && l == k + 1 < |f.pending| :: !(f.pending[k] == 10 && f.pending[l] == 10)
  {
    PushesKeepFraming(t, state, chunks, n);
    var f := PushedAll(t, state, chunks, n).1;
    forall i | 0 <= i < |f.inputs|
      ensures WholeFrames(f.inputs[i])
    {
    }
    forall k, l | 0 <= k && l == k + 1 < |f.pending|
      ensures !(f.pending[k] == 10 && f.pending[l] == 10)
    {
      assert !BoundaryAt(f.pending, l + 1);
    }
  }

  /** After `finish` the transform has been given the whole stream, in order. */
  lemma InputsAreTheStream<S>(t: Transform<S>, state: S, chunks: seq<Bytes>)
    ensures Concat(Translated(t, state, chunks).1.inputs) == Concat(chunks)
  {
    var f := PushedAll(t, state, chunks, |chunks|).1;
    PushesKeepFraming(t, state, chunks, |chunks|);
    assert chunks[..|chunks|] == chunks;
    if f.pending != [] {
      ConcatStep(f.inputs, f.pending);
    } else {
      assert Concat(f.inputs) + [] == Concat(f.inputs);
    }
  }

  // ---- Chunks do not matter ----

  function Then<S>(t: Transform<S>, a: Bytes, b: Bytes, s: S): (Bytes, S) {
    var (x, s1) := t(a, s);
    var (y, s2) := t(b, s1);
    (x + y, s2)
  }

  /** Stopping at a frame boundary and going on gives what one go gives. */
  ghost predicate Composes<S(!new)>(t: Transform<S>) {
    forall a, b, s | WholeFrames(a) && b != [] :: t(a + b, s) == Then(t, a, b, s)
  }

  /** The transform in one go; it is never called on nothing. */
  function Whole<S>(t: Transform<S>, b: Bytes, s: S): (Bytes, S) {
    if b == [] then ([], s) else t(b, s)
  }

  lemma WholeExtends<S(!new)>(t: Transform<S>, a: Bytes, b: Bytes, s: S)
    requires Composes(t) && (a == [] || WholeFrames(a)) && b != []
    ensures Whole(t, a + b, s) == (var (x, s1) := Whole(t, a, s); var (y, s2) := t(b, s1); (x + y, s2))
  {
    if a == [] {
      assert a + b == b;
      var (y, s2) := t(b, s);
      assert [] + y == y;
    } else {
      assert t(a + b, s) == Then(t, a, b, s);
    }
  }

  lemma WholeInputs(inputs: seq<Bytes>)
    requires AllWhole(inputs)
    ensures Concat(inputs) == [] || WholeFrames(Concat(inputs))
  {
    if inputs != [] {
      var front, last := inputs[..|inputs| - 1], inputs[|inputs| - 1];
      var all := Concat(front) + last;
      assert WholeFrames(last);
      assert all[|all| - 2] == last[|last| - 2] && all[|all| - 1] == last[|last| - 1];
    }
  }

  /** So far the output and the state are those of the transform run once over its inputs. */
  ghost predicate AsOne<S>(t: Transform<S>, state: S, out: Bytes, f: Flow<S>) {
    (out, f.state) == Whole(t, Concat(f.inputs), state)
  }

  lemma ApplyKeepsAsOne<S(!new)>(t: Transform<S>, state: S, out: Bytes, f: Flow<S>, input: Bytes, rest: Bytes)
    requires Composes(t) && AllWhole(f.inputs) && input != [] && AsOne(t, state, out, f)
    ensures var (more, after) := Apply(t, f, input, rest); AsOne(t, state, out + more, after)
  {
    ConcatStep(f.inputs, input);
    WholeInputs(f.inputs);
    WholeExtends(t, Concat(f.inputs), input, state);
  }

  lemma PushKeepsAsOne<S(!new)>(t: Transform<S>, state: S, out: Bytes, f: Flow<S>, chunk: Bytes)
    requires Composes(t) && AllWhole(f.inputs) && AsOne(t, state, out, f)
    ensures var (more, after) := Pushed(t, f, chunk); AsOne(t, state, out + more, after)
  {
    var all := f.pending + chunk;
    if Cut(all) > 0 {
      ApplyKeepsAsOne(t, state, out, f, all[..Cut(all)], all[Cut(all)..]);
    } else {
      assert out + [] == out;
    }
  }

  lemma {:induction false} PushedIsWhole<S(!new)>(t: Transform<S>, state: S, chunks: seq<Bytes>, n: nat)
    requires Composes(t) && n <= |chunks|
    ensures var (out, f) := PushedAll(t, state, chunks, n); AsOne(t, state, out, f)
  {
    if n > 0 {
      var (out, f) := PushedAll(t, state, chunks, n - 1);
      PushedIsWhole(t, state, chunks, n - 1);
      PushesKeepFraming(t, state, chunks, n - 1);
      PushKeepsAsOne(t, state, out, f, chunks[n - 1]);
    }
  }

  lemma TranslatedIsWhole<S(!new)>(t: Transform<S>, state: S, chunks: seq<Bytes>)
    requires Composes(t)
    ensures
      var (out, f) := Translated(t, state, chunks);
      (out, f.state) == Whole(t, Concat(chunks), state)
  {
    var (before, f) := PushedAll(t, state, chunks, |chunks|);
    PushedIsWhole(t, state, chunks, |chunks|);
    PushesKeepFraming(t, state, chunks, |chunks|);
    InputsAreTheStream(t, state, chunks);
    if f.pending != [] {
      ApplyKeepsAsOne(t, state, before, f, f.pending, []);
    } else {
      assert before + [] == before;
    }
  }

  /**
   * For a transform that may stop at any frame boundary, two ways of chunking one stream give the same
   * output and leave the same state, although the inputs the transform sees may be cut differently.
   */
  lemma ChunksDoNotMatter<S(!new)>(t: Transform<S>, state: S, chunks1: seq<Bytes>, chunks2: seq<Bytes>)
    requires Composes(t) && Concat(chunks1) == Concat(chunks2)
    ensures Translated(t, state, chunks1).0 == Translated(t, state, chunks2).0
    ensures Translated(t, state, chunks1).1.state == Translated(t, state, chunks2).1.state
  {
    TranslatedIsWhole(t, state, chunks1);
    TranslatedIsWhole(t, state, chunks2);
  }

  lemma PushEndingInBoundary<S>(t: Transform<S>, f: Flow<S>, chunk: Bytes)
    requires f.pending == [] && WholeFrames(chunk)
    ensures Pushed(t, f, chunk).1.inputs == f.inputs + [chunk] && Pushed(t, f, chunk).1.pending == []
  {
    LastBoundaryIsCut(chunk, |chunk|);
    assert f.pending + chunk == chunk && chunk[..|chunk|] == chunk;
  }

  /** Three line feeds in a row are cut after two or after three, as they happen to arrive. */
  lemma CutsDependOnChunks<S>(t: Transform<S>, state: S)
    ensures Translated(t, state, [[LF, LF, LF]]).1.inputs == [[LF, LF, LF]]
    ensures Translated(t, state, [[LF, LF], [LF]]).1.inputs == [[LF, LF], [LF]]
  {
    var one, two, start := [[LF, LF, LF]], [[LF, LF], [LF]], Start(state);
    PushEndingInBoundary(t, start, one[0]);
    assert PushedAll(t, state, one, 0).1 == start;
    assert PushedAll(t, state, one, 1).1 == Pushed(t, start, one[0]).1;
    PushEndingInBoundary(t, start, two[0]);
    var f := Pushed(t, start, two[0]).1;
    assert PushedAll(t, state, two, 0).1 == start;
    assert PushedAll(t, state, two, 1).1 == f;
    assert PushedAll(t, state, two, 2).1 == Pushed(t, f, two[1]).1;
    assert [] + two[1] == two[1] && Cut(two[1]) == 0;
  }

  // ---- The translator as it runs ----

  /** Looks for the last boundary from the end. */
  method TakeCompleteFrames(pending: Bytes) returns (frames: Option<Bytes>, rest: Bytes)
    ensures Cut(pending) == 0 ==> frames == None && rest == pending
    ensures Cut(pending) > 0 ==> frames == Some(pending[..Cut(pending)]) && rest == pending[Cut(pending)..]
  {
    var n := |pending|;
    while n >= 2
      invariant n <= |pending| && forall m | n < m :: !BoundaryAt(pending, m)
    {
      if pending[n - 2] == LF && pending[n - 1] == LF {
        LastBoundaryIsCut(pending, n);
        return Some(pending[..n]), pending[n..];
      }
      n := n - 1;
    }
    LastBoundaryIsCut(pending, 0);
    return None, pending;
  }

  class SseTranslator<S> {
    const transform: Transform<S>
    const passthrough: bool
    var state: S
    var pending: Bytes
    ghost var inputs: seq<Bytes>

    ghost function AsFlow(): Flow<S>
      reads this
    {
      Flow(state, pending, inputs)
    }

    constructor (transform: Transform<S>, passthrough: bool, state: S)
      ensures this.transform == transform && this.passthrough == passthrough
      ensures AsFlow() == Start(state)
    {
      this.transform, this.passthrough := transform, passthrough;
      this.state, this.pending, this.inputs := state, [], [];
    }

    method Convert(frames: Bytes) returns (out: Bytes)
      modifies this
      ensures (out, AsFlow()) == Apply(transform, old(AsFlow()), frames, old(pending))
    {
      var result := transform(frames, state);
      out, state := result.0, result.1;
      inputs := inputs + [frames];
    }

    method Push(chunk: Bytes) returns (out: Bytes)
      modifies this
      ensures passthrough ==> out == chunk && AsFlow() == old(AsFlow())
      ensures !passthrough ==> (out, AsFlow()) == Pushed(transform, old(AsFlow()), chunk)
    {
      if passthrough {
        return chunk;
      }
      var frames, rest := TakeCompleteFrames(pending + chunk);
      pending := rest;
      if frames.None? {
        return [];
      }
      out := Convert(frames.value);
    }

    method Finish() returns (out: Bytes)
      modifies this
      ensures passthrough ==> out == [] && AsFlow() == old(AsFlow())
      ensures !passthrough ==> (out, AsFlow()) == Finished(transform, old(AsFlow()))
    {
      if passthrough || pending == [] {
        return [];
      }
      var rest := pending;
      pending := [];
      out := Convert(rest);
    }
  }

  /** One stream through the translator; a passthrough forwards it untouched. */
  method Forward<S>(transform: Transform<S>, passthrough: bool, state: S, chunks: seq<Bytes>) returns (out: Bytes)
    ensures out == if passthrough then Concat(chunks) else Translated(transform, state, chunks).0
  {
    var tr := new SseTranslator(transform, passthrough, state);
    out := [];
    for n := 0 to |chunks|
      invariant tr.transform == transform && tr.passthrough == passthrough
      invariant passthrough ==> out == Concat(chunks[..n])
      invariant !passthrough ==> (out, tr.AsFlow()) == PushedAll(transform, state, chunks, n)
    {
      var more := tr.Push(chunks[n]);
      ConcatStep(chunks[..n], chunks[n]);
      assert chunks[..n + 1] == chunks[..n] + [chunks[n]];
      out := out + more;
    }
    assert chunks[..|chunks|] == chunks;
    var last := tr.Finish();
    out := out + last;
  }
}
