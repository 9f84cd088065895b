/** The output guard: a reader per stream that stops as soon as a limit is passed,
    and the decision over both streams. */
module GuardedOutput {
  import opened Common

  newtype byte = b: int | 0 <= b < 256

  const NEWLINE: byte := 10
  const BUFFER: nat := 8192

  datatype Limits = Limits(maxBytes: nat, maxLines: nat)

  // ---- Counting lines ----

  function Newlines(s: seq<byte>): nat {
    if s == [] then 0
    else Newlines(s[..|s| - 1]) + if s[|s| - 1] == NEWLINE then 1 else 0
  }

  function Last(s: seq<byte>): Option<byte> {
    if s == [] then None else Some(s[|s| - 1])
  }

  function CountedLines(bytes: nat, newlines: nat, last: Option<byte>): nat {
    if bytes == 0 then 0 else if last == Some(NEWLINE) then newlines else newlines + 1
  }

  function Lines(s: seq<byte>): nat {
    CountedLines(|s|, Newlines(s), Last(s))
  }

  predicate StartsLine(s: seq<byte>, i: int) {
    0 <= i < |s| && (i == 0 || s[i - 1] == NEWLINE)
  }

  ghost function LineStarts(s: seq<byte>): set<int> {
    set i | 0 <= i < |s| && StartsLine(s, i)
  }

  /** The count derived from newlines and the last byte is the number of lines: the
      number of positions at which a line begins. */
  lemma {:induction false} LinesCountStarts(s: seq<byte>)
    ensures Lines(s) == |LineStarts(s)|
  {
    if s != [] {
      var n := |s| - 1;
      var front := s[..n];
      LinesCountStarts(front);
      assert forall i :: StartsLine(front, i) <==> StartsLine(s, i) && i < n;
      if StartsLine(s, n) {
        assert LineStarts(s) == LineStarts(front) + {n};
      } else {
        assert LineStarts(s) == LineStarts(front);
      }
    }
  }

  lemma {:induction false} NewlinesConcat(a: seq<byte>, b: seq<byte>)
    ensures Newlines(a + b) == Newlines(a) + Newlines(b)
    decreases |b|
  {
    if b == [] {
      assert a + b == a;
    } else {
      assert (a + b)[..|a + b| - 1] == a + b[..|b| - 1];
      NewlinesConcat(a, b[..|b| - 1]);
    }
  }

  predicate TooLarge(s: seq<byte>, limits: Limits) {
    |s| > limits.maxBytes || Lines(s) > limits.maxLines
  }

  /** Reading more never takes a line back, although the unfinished last line is counted. */
  lemma LinesGrow(a: seq<byte>, b: seq<byte>)
    ensures Lines(a) <= Lines(a + b)
  {
    NewlinesConcat(a, b);
    if b == [] {
      assert a + b == a;
    } else {
      assert Last(a + b) == Last(b);
    }
  }

  // ---- One stream ----

  /** The reader's running variables. */
  datatype Reader = Reader(output: seq<byte>, bytes: nat, newlines: nat, last: Option<byte>) {
    function Lines(): nat {
      CountedLines(bytes, newlines, last)
    }

    predicate Over(limits: Limits) {
      bytes > limits.maxBytes || Lines() > limits.maxLines
    }

    ghost predicate Tracks(seen: seq<byte>, limits: Limits) {
      && bytes == |seen|
      && newlines == Newlines(seen)
      && last == Last(seen)
      && output == Kept(seen, limits)
    }
  }

  const IDLE := Reader([], 0, 0, None)

  /** The part of a stream the reader may hold on to. */
  function Kept(s: seq<byte>, limits: Limits): seq<byte> {
    if |s| <= limits.maxBytes then s else s[..limits.maxBytes]
  }

  /** One turn of the read loop with a nonempty chunk. */
  function Take(r: Reader, chunk: seq<byte>, limits: Limits): Reader
    requires chunk != []
  {
    var remaining := if limits.maxBytes >= |r.output| then limits.maxBytes - |r.output| else 0;
    Reader(
      r.output + chunk[..if |chunk| <= remaining then |chunk| else remaining],
      r.bytes + |chunk|, r.newlines + Newlines(chunk), Last(chunk))
  }

  lemma TakeIs(r: Reader, chunk: seq<byte>, limits: Limits, next: Reader)
    requires chunk != []
    requires next.bytes == r.bytes + |chunk| && next.last == Last(chunk)
    requires next.newlines == r.newlines + Newlines(chunk)
    requires
      var remaining := if limits.maxBytes >= |r.output| then limits.maxBytes - |r.output| else 0;
      && (remaining == 0 ==> next.output == r.output)
      && (remaining > 0 ==>
            next.output == r.output + chunk[..if |chunk| <= remaining then |chunk| else remaining])
    ensures next == Take(r, chunk, limits)
  {
  }

  lemma TakeTracks(r: Reader, seen: seq<byte>, chunk: seq<byte>, limits: Limits)
    requires chunk != [] && r.Tracks(seen, limits)
    ensures Take(r, chunk, limits).Tracks(seen + chunk, limits)
    ensures Take(r, chunk, limits).Over(limits) <==> TooLarge(seen + chunk, limits)
    ensures TooLarge(seen, limits) ==> TooLarge(seen + chunk, limits)
  {
    NewlinesConcat(seen, chunk);
    LinesGrow(seen, chunk);
    assert Take(r, chunk, limits).output == Kept(seen + chunk, limits);
  }

  /** What one call to the stream's `read` yields; an empty chunk is the end of file. */
  datatype Read = Chunk(data: seq<byte>) | Failure

  /** Everything the reads would deliver up to the end of file or the first failure. */
  function Delivered(chunks: seq<Read>): seq<byte> {
    if chunks == [] || chunks[0].Failure? || chunks[0].data == [] then []
    else chunks[0].data + Delivered(chunks[1..])
  }

  /** Whether the stream breaks with an error before its end of file. */
  predicate Breaks(chunks: seq<Read>) {
    chunks != [] && (chunks[0].Failure? || (chunks[0].data != [] && Breaks(chunks[1..])))
  }

  datatype Guarded = Guarded(output: seq<byte>, bytes: nat, lines: nat)
  datatype ReadError = StreamFailed

  /** Reads until end of file, failure or excess. However the stream is cut into chunks,
      the excess flag says whether the whole stream is over a limit. */
  method ReadGuarded(chunks: seq<Read>, limits: Limits)
    returns (result: Result<Guarded, ReadError>, exceeded: bool)
    requires forall i :: 0 <= i < |chunks| && chunks[i].Chunk? ==> |chunks[i].data| <= BUFFER
    ensures exceeded <==> TooLarge(Delivered(chunks), limits)
    ensures result.Err? <==> !exceeded && Breaks(chunks)
    ensures result.Ok? && !exceeded ==>
      var all := Delivered(chunks);
      result.value == Guarded(all, |all|, Lines(all))
    ensures exceeded ==>
      var g, all := result.value, Delivered(chunks);
      && g.bytes <= |all|
      && g.output == all[..if g.bytes <= limits.maxBytes then g.bytes else limits.maxBytes]
      && g.lines == Lines(all[..g.bytes])
      && TooLarge(all[..g.bytes], limits)
      && exists early :: 0 <= early < g.bytes <= early + BUFFER && !TooLarge(all[..early], limits)
  {
    hide Take, Kept, Newlines, TooLarge;
    var output: seq<byte> := [];
    var bytes: nat, newlines: nat := 0, 0;
    var last: Option<byte> := None;
    exceeded := false;
    ghost var all := Delivered(chunks);
    ghost var early := 0;
    var i := 0;
    NothingRead(all, limits);
    assert chunks[0..] == chunks;
    while i < |chunks|
      invariant 0 <= i <= |chunks|
      invariant bytes <= |all| && !exceeded && !TooLarge(all[..bytes], limits)
      invariant Reader(output, bytes, newlines, last).Tracks(all[..bytes], limits)
      invariant all[bytes..] == Delivered(chunks[i..])
      invariant Breaks(chunks) == Breaks(chunks[i..])
    {
      if chunks[i].Failure? {
        NothingLeft(all, bytes, limits);
        return Err(StreamFailed), false;
      }
      var buffer := chunks[i].data;
      var read := |buffer|;
      if read == 0 {
        break;
      }
      ghost var before := Reader(output, bytes, newlines, last);
      early := bytes;
      bytes := bytes + read;
      newlines := CountNewlines(buffer, newlines);
      last := Some(buffer[read - 1]);
      var remaining := if limits.maxBytes >= |output| then limits.maxBytes - |output| else 0;
      if remaining > 0 {
        output := output + buffer[..if read <= remaining then read else remaining];
      }
      assert chunks[i..][1..] == chunks[i + 1..];
      ChunkTaken(all, before, buffer, Delivered(chunks[i + 1..]), limits);
      TakeIs(before, buffer, limits, Reader(output, bytes, newlines, last));
      var lines := CountedLines(bytes, newlines, last);
      if bytes > limits.maxBytes || lines > limits.maxLines {
        exceeded := true;
        break;
      }
      i := i + 1;
    }
    if !exceeded {
      NothingLeft(all, bytes, limits);
    }
    KeptIsPrefix(all, bytes, limits);
    result := Ok(Guarded(output, bytes, CountedLines(bytes, newlines, last)));
  }

  lemma KeptIsPrefix(all: seq<byte>, bytes: nat, limits: Limits)
    requires bytes <= |all|
    ensures Kept(all[..bytes], limits) == all[..if bytes <= limits.maxBytes then bytes else limits.maxBytes]
  {
  }

  lemma NothingRead(all: seq<byte>, limits: Limits)
    ensures all[..0] == [] && all[0..] == all
    ensures IDLE.Tracks([], limits) && !TooLarge([], limits)
  {
  }

  lemma NothingLeft(all: seq<byte>, bytes: nat, limits: Limits)
    requires bytes <= |all| && all[bytes..] == []
    ensures bytes == |all| && all[..bytes] == all
    ensures !TooLarge(all, limits) ==> Kept(all, limits) == all
  {
  }

  /** One chunk more: what the reader's variables and the rest of the stream become. */
  lemma ChunkTaken(
    all: seq<byte>, before: Reader, chunk: seq<byte>, rest: seq<byte>, limits: Limits)
    requires chunk != [] && before.bytes <= |all| && before.Tracks(all[..before.bytes], limits)
    requires all[before.bytes..] == chunk + rest
    ensures
      var bytes := before.bytes + |chunk|;
      && bytes <= |all|
      && all[bytes..] == rest
      && Take(before, chunk, limits).Tracks(all[..bytes], limits)
      && (Take(before, chunk, limits).Over(limits) <==> TooLarge(all[..bytes], limits))
      && (TooLarge(all[..bytes], limits) ==> TooLarge(all, limits))
  {
    hide Take, Kept, TooLarge, Reader.Over;
    var seen := all[..before.bytes];
    ChunkSplits(all, before.bytes, chunk, rest);
    TakeTracks(before, seen, chunk, limits);
    if TooLarge(seen + chunk, limits) {
      PrefixTooLarge(all, before.bytes + |chunk|, limits);
    }
  }

  lemma ChunkSplits(all: seq<byte>, early: nat, chunk: seq<byte>, rest: seq<byte>)
    requires early <= |all| && all[early..] == chunk + rest
    ensures early + |chunk| <= |all|
    ensures all[..early + |chunk|] == all[..early] + chunk && all[early + |chunk|..] == rest
  {
    assert |all| - early == |chunk| + |rest|;
    assert all == all[..early] + (chunk + rest);
    assert all == (all[..early] + chunk) + rest;
  }

  /** The counting loop over one buffer. */
  method CountNewlines(buffer: seq<byte>, count: nat) returns (newlines: nat)
    ensures newlines == count + Newlines(buffer)
  {
    newlines := count;
    for i := 0 to |buffer|
      invariant newlines == count + Newlines(buffer[..i])
    {
      assert buffer[..i + 1][..i] == buffer[..i];
      if buffer[i] == NEWLINE {
        newlines := newlines + 1;
      }
    }
    assert buffer[..|buffer|] == buffer;
  }

  // ---- Both streams ----

  /** One stream of the running command: bytes not read yet, and its reader thread. */
  datatype Pipe = Pipe(pending: seq<byte>, reader: Reader, done: bool)

  /** The command under guard. The flag is shared by both readers and the waiting loop. */
  datatype Guard = Guard(stdout: Pipe, stderr: Pipe, exceeded: bool)

  /** A read of `n` bytes by one reader, or the killing of the command after the flag was
      seen, which leaves a prefix of what each stream would still have carried. */
  datatype Event = ReadStdout(n: nat) | ReadStderr(n: nat) | Kill(keepStdout: nat, keepStderr: nat)

  function Start(out: seq<byte>, err: seq<byte>): Guard {
    Guard(Pipe(out, IDLE, false), Pipe(err, IDLE, false), false)
  }

  function Cut(s: seq<byte>, keep: nat): seq<byte> {
    if keep <= |s| then s[..keep] else s
  }

  function ReadPipe(p: Pipe, n: nat, limits: Limits): Pipe {
    if p.done || n > |p.pending| || n > BUFFER then p
    else if n == 0 then p.(done := p.pending == [])
    else
      var reader := Take(p.reader, p.pending[..n], limits);
      Pipe(p.pending[n..], reader, reader.Over(limits))
  }

  function Step(g: Guard, event: Event, limits: Limits): Guard {
    match event
    case ReadStdout(n) =>
      var pipe := ReadPipe(g.stdout, n, limits);
      g.(stdout := pipe, exceeded := g.exceeded || pipe.reader.Over(limits))
    case ReadStderr(n) =>
      var pipe := ReadPipe(g.stderr, n, limits);
      g.(stderr := pipe, exceeded := g.exceeded || pipe.reader.Over(limits))
    case Kill(keepStdout, keepStderr) =>
      if !g.exceeded then g
      else g.(stdout := g.stdout.(pending := Cut(g.stdout.pending, keepStdout)),
              stderr := g.stderr.(pending := Cut(g.stderr.pending, keepStderr)))
  }

  function StateAfter(g: Guard, events: seq<Event>, limits: Limits): Guard {
    if events == [] then g
    else Step(StateAfter(g, events[..|events| - 1], limits), events[|events| - 1], limits)
  }

  datatype Verdict = Blocked | Passed(stdout: seq<byte>, stderr: seq<byte>)

  /** The decision once both readers have been joined. */
  function Decide(g: Guard, limits: Limits): Verdict {
    if || g.exceeded
       || g.stdout.reader.bytes + g.stderr.reader.bytes > limits.maxBytes
       || g.stdout.reader.Lines() + g.stderr.reader.Lines() > limits.maxLines
    then Blocked
    else Passed(g.stdout.reader.output, g.stderr.reader.output)
  }

  /** A pipe against the stream its command would write if left alone. */
  ghost predicate Follows(p: Pipe, full: seq<byte>, exceeded: bool, limits: Limits) {
    && p.reader.bytes <= |full|
    && p.reader.Tracks(full[..p.reader.bytes], limits)
    && full[..p.reader.bytes] + p.pending <= full
    && (!exceeded ==> full[..p.reader.bytes] + p.pending == full && (p.done ==> p.pending == []))
    && (p.reader.Over(limits) ==> TooLarge(full, limits) && exceeded)
  }

  ghost predicate Consistent(g: Guard, out: seq<byte>, err: seq<byte>, limits: Limits) {
    && Follows(g.stdout, out, g.exceeded, limits)
    && Follows(g.stderr, err, g.exceeded, limits)
    && (g.exceeded ==> TooLarge(out, limits) || TooLarge(err, limits))
  }

  lemma PrefixMoves(full: seq<byte>, k: nat, pending: seq<byte>, n: nat)
    requires k <= |full| && n <= |pending| && full[..k] + pending <= full
    ensures k + n <= |full|
    ensures full[..k + n] == full[..k] + pending[..n]
    ensures full[..k + n] + pending[n..] == full[..k] + pending
  {
    assert full[..|full[..k] + pending|] == full[..k] + pending;
  }

  lemma PrefixTooLarge(full: seq<byte>, k: nat, limits: Limits)
    requires k <= |full| && TooLarge(full[..k], limits)
    ensures TooLarge(full, limits)
  {
    LinesGrow(full[..k], full[k..]);
    assert full == full[..k] + full[k..];
  }

  lemma ReadFollows(p: Pipe, full: seq<byte>, exceeded: bool, n: nat, limits: Limits)
    requires Follows(p, full, exceeded, limits)
    ensures
      var next := ReadPipe(p, n, limits);
      Follows(next, full, exceeded || next.reader.Over(limits), limits)
  {
    hide Take, TooLarge, Kept, Reader.Over;
    if !p.done && 0 < n <= |p.pending| && n <= BUFFER {
      var r := p.reader;
      var next := Take(r, p.pending[..n], limits);
      TakeTracks(r, full[..r.bytes], p.pending[..n], limits);
      PrefixMoves(full, r.bytes, p.pending, n);
      assert next.bytes == r.bytes + n;
      if next.Over(limits) {
        PrefixTooLarge(full, next.bytes, limits);
      }
    }
  }

  lemma StepConsistent(g: Guard, event: Event, out: seq<byte>, err: seq<byte>, limits: Limits)
    requires Consistent(g, out, err, limits)
    ensures Consistent(Step(g, event, limits), out, err, limits)
  {
    match event
    case ReadStdout(n) =>
      ReadFollows(g.stdout, out, g.exceeded, n, limits);
    case ReadStderr(n) =>
      ReadFollows(g.stderr, err, g.exceeded, n, limits);
    case Kill(_, _) =>
  }

  lemma {:induction false} ReachableConsistent(
    out: seq<byte>, err: seq<byte>, events: seq<Event>, limits: Limits)
    ensures Consistent(StateAfter(Start(out, err), events, limits), out, err, limits)
  {
    if events == [] {
      assert out[..0] + out == out && err[..0] + err == err;
    } else {
      ReachableConsistent(out, err, events[..|events| - 1], limits);
      StepConsistent(StateAfter(Start(out, err), events[..|events| - 1], limits),
                     events[|events| - 1], out, err, limits);
    }
  }

  /** However the two readers, the flag and the kill interleave, the command is blocked
      exactly when its two whole streams together are over a limit, and otherwise both
      are passed on complete. */
  lemma VerdictIsAboutWholeStreams(
    out: seq<byte>, err: seq<byte>, events: seq<Event>, limits: Limits)
    requires var g := StateAfter(Start(out, err), events, limits); g.stdout.done && g.stderr.done
    ensures
      Decide(StateAfter(Start(out, err), events, limits), limits)
      == if |out| + |err| > limits.maxBytes || Lines(out) + Lines(err) > limits.maxLines
         then Blocked else Passed(out, err)
  {
    ReachableConsistent(out, err, events, limits);
    var g := StateAfter(Start(out, err), events, limits);
    if !g.exceeded {
      assert out[..g.stdout.reader.bytes] == out && err[..g.stderr.reader.bytes] == err;
    }
  }
}
