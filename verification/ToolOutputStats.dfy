/** Telemetry over tool outputs: running totals and the five largest outputs,
    kept up to date one sample at a time. */
module ToolOutputStats {
  import opened Common

  const LARGE_THRESHOLD: nat := 5_000
  const MAX_SAMPLES: nat := 5

  datatype Sample = Sample(tokens: nat, session: string, command: string)

  // ---- The stable descending sort ----

  function Insert(sorted: seq<Sample>, x: Sample): seq<Sample> {
    if sorted == [] || sorted[0].tokens < x.tokens then [x] + sorted
    else [sorted[0]] + Insert(sorted[1..], x)
  }

  function StableSort(s: seq<Sample>): seq<Sample> {
    if s == [] then [] else Insert(StableSort(s[..|s| - 1]), s[|s| - 1])
  }

  ghost predicate Descending(s: seq<Sample>) {
    forall i, j :: 0 <= i < j < |s| ==> s[i].tokens >= s[j].tokens
  }

  /** The samples with a given token count, in the order they stand in. */
  ghost function WithTokens(s: seq<Sample>, k: nat): seq<Sample> {
    if s == [] then []
    else (if s[0].tokens == k then [s[0]] else []) + WithTokens(s[1..], k)
  }

  ghost predicate IsStableSort(s: seq<Sample>, t: seq<Sample>) {
    Descending(t) && forall k: nat :: WithTokens(t, k) == WithTokens(s, k)
  }

  lemma {:induction false} WithTokensConcat(a: seq<Sample>, b: seq<Sample>, k: nat)
    ensures WithTokens(a + b, k) == WithTokens(a, k) + WithTokens(b, k)
    decreases |a|
  {
    if a == [] {
      assert a + b == b;
    } else {
      assert (a + b)[1..] == a[1..] + b;
      WithTokensConcat(a[1..], b, k);
      var head := if a[0].tokens == k then [a[0]] else [];
      assert WithTokens(a + b, k) == head + WithTokens(a[1..] + b, k);
      assert WithTokens(a, k) == head + WithTokens(a[1..], k);
    }
  }

  lemma {:induction false} SmallerHasNone(s: seq<Sample>, k: nat)
    requires forall i :: 0 <= i < |s| ==> s[i].tokens < k
    ensures WithTokens(s, k) == []
  {
    if s != [] {
      SmallerHasNone(s[1..], k);
    }
  }

  lemma {:induction false} InsertDescends(t: seq<Sample>, x: Sample)
    requires Descending(t)
    ensures Descending(Insert(t, x))
    ensures forall y :: y in Insert(t, x) ==> y == x || y in t
  {
    if t != [] && t[0].tokens >= x.tokens {
      var rest := Insert(t[1..], x);
      InsertDescends(t[1..], x);
      forall j | 0 <= j < |rest| ensures rest[j].tokens <= t[0].tokens {
        assert rest[j] in rest;
      }
    }
  }

  lemma OtherTokens(x: Sample, k: nat)
    ensures WithTokens([x], k) == if x.tokens == k then [x] else []
  {
  }

  /** The new sample stands after all those with its token count. */
  lemma {:induction false} InsertIsStable(t: seq<Sample>, x: Sample, k: nat)
    requires Descending(t)
    ensures WithTokens(Insert(t, x), k) == WithTokens(t, k) + WithTokens([x], k)
  {
    hide WithTokens;
    if t == [] {
      assert [x] + t == [x];
      SmallerHasNone(t, k);
    } else if t[0].tokens < x.tokens {
      WithTokensConcat([x], t, k);
      if k == x.tokens {
        SmallerHasNone(t, k);
      } else {
        OtherTokens(x, k);
      }
    } else {
      var rest := Insert(t[1..], x);
      InsertIsStable(t[1..], x, k);
      WithTokensConcat([t[0]], rest, k);
      WithTokensConcat([t[0]], t[1..], k);
      assert [t[0]] + t[1..] == t;
    }
  }

  lemma {:induction false} StableSortIsStable(s: seq<Sample>)
    ensures IsStableSort(s, StableSort(s))
  {
    if s != [] {
      var front, last := s[..|s| - 1], s[|s| - 1];
      StableSortIsStable(front);
      InsertDescends(StableSort(front), last);
      forall k: nat ensures WithTokens(StableSort(s), k) == WithTokens(s, k) {
        InsertIsStable(StableSort(front), last, k);
        WithTokensConcat(front, [last], k);
        assert front + [last] == s;
      }
    }
  }

  lemma {:induction false} TokensPresent(s: seq<Sample>, k: nat)
    requires WithTokens(s, k) != []
    ensures exists i :: 0 <= i < |s| && s[i].tokens == k
  {
    if s[0].tokens != k {
      TokensPresent(s[1..], k);
      var i :| 0 <= i < |s[1..]| && s[1..][i].tokens == k;
      assert s[i + 1].tokens == k;
    }
  }

  lemma WithTokensTail(s: seq<Sample>, k: nat)
    requires s != []
    ensures WithTokens(s[1..], k) == if s[0].tokens == k then WithTokens(s, k)[1..] else WithTokens(s, k)
  {
  }

  lemma EmptyIfNoTokens(s: seq<Sample>, t: seq<Sample>)
    requires forall k: nat :: WithTokens(s, k) == WithTokens(t, k)
    ensures s == [] ==> t == []
  {
    if t != [] {
      assert WithTokens(t, t[0].tokens) != [];
    }
  }

  /** There is only one stable sort: descending order and the order among equals
      leave no choice. */
  lemma {:induction false} StableSortIsUnique(s: seq<Sample>, t: seq<Sample>)
    requires Descending(s) && Descending(t)
    requires forall k: nat :: WithTokens(s, k) == WithTokens(t, k)
    ensures s == t
  {
    if s == [] || t == [] {
      EmptyIfNoTokens(s, t);
      EmptyIfNoTokens(t, s);
    } else {
      var k := s[0].tokens;
      assert WithTokens(s, k) != [];
      TokensPresent(t, k);
      assert WithTokens(t, t[0].tokens) != [];
      TokensPresent(s, t[0].tokens);
      assert WithTokens(s, k)[0] == s[0] && WithTokens(t, k)[0] == t[0];
      forall j: nat ensures WithTokens(s[1..], j) == WithTokens(t[1..], j) {
        WithTokensTail(s, j);
        WithTokensTail(t, j);
      }
      StableSortIsUnique(s[1..], t[1..]);
    }
  }

  // ---- The accumulator ----

  datatype Totals = Totals(
    calls: nat, originalTokens: nat, largeCalls: nat, largeOriginalTokens: nat, samples: seq<Sample>)

  const NOTHING := Totals(0, 0, 0, 0, [])

  function Top(s: seq<Sample>): seq<Sample> {
    if |s| <= MAX_SAMPLES then s else s[..MAX_SAMPLES]
  }

  function Add(t: Totals, sample: Sample): Totals {
    var large := sample.tokens >= LARGE_THRESHOLD;
    Totals(
      t.calls + 1,
      t.originalTokens + sample.tokens,
      t.largeCalls + if large then 1 else 0,
      t.largeOriginalTokens + if large then sample.tokens else 0,
      Top(StableSort(t.samples + [sample])))
  }

  function After(all: seq<Sample>): Totals {
    if all == [] then NOTHING else Add(After(all[..|all| - 1]), all[|all| - 1])
  }

  class Stats {
    var calls: nat
    var originalTokens: nat
    var largeCalls: nat
    var largeOriginalTokens: nat
    var samples: seq<Sample>

    ghost function Value(): Totals
      reads this
    {
      Totals(calls, originalTokens, largeCalls, largeOriginalTokens, samples)
    }

    constructor ()
      ensures Value() == NOTHING
    {
      calls, originalTokens, largeCalls, largeOriginalTokens, samples := 0, 0, 0, 0, [];
    }

    method AddSample(sample: Sample)
      modifies this
      ensures Value() == Add(old(Value()), sample)
    {
      hide StableSort;
      calls := calls + 1;
      originalTokens := originalTokens + sample.tokens;
      if sample.tokens >= LARGE_THRESHOLD {
        largeCalls := largeCalls + 1;
        largeOriginalTokens := largeOriginalTokens + sample.tokens;
      }
      samples := samples + [sample];
      samples := StableSort(samples);
      if |samples| > MAX_SAMPLES {
        samples := samples[..MAX_SAMPLES];
      }
    }

    /** One response item: a call is remembered, a counted output becomes a sample. */
    method CollectToolOutput(payload: Payload, session: string, commands: map<string, string>, countOutput: bool)
      returns (remembered: map<string, string>)
      modifies this
      ensures remembered == if payload.Call? then commands[payload.id := payload.command] else commands
      ensures !Counted(Line(payload, countOutput)) ==> Value() == old(Value())
      ensures Counted(Line(payload, countOutput)) ==>
        var command := if payload.callId.Some? && payload.callId.value in commands
                       then commands[payload.callId.value] else UNKNOWN_CALL;
        Value() == Add(old(Value()), Sample(payload.tokens.value, session, command))
    {
      hide Add;
      remembered := commands;
      match payload {
        case Call(id, command) =>
          remembered := commands[id := command];
        case Output(callId, tokens) =>
          if !countOutput || tokens.None? {
            return;
          }
          var command := UNKNOWN_CALL;
          if callId.Some? && callId.value in commands {
            command := commands[callId.value];
          }
          AddSample(Sample(tokens.value, session, command));
        case Other =>
      }
    }

    /** The lines of one session, added to whatever earlier sessions left behind. */
    method CollectSession(lines: seq<Line>, session: string, ghost earlier: seq<Sample>)
      requires Value() == After(earlier)
      modifies this
      ensures Value() == After(earlier + SamplesOf(lines, session))
      ensures Value() == Whole(earlier + SamplesOf(lines, session))
    {
      hide Add, After, SamplesOf, Announced, Counted, Whole;
      var commands: map<string, string> := map[];
      NoLinesYet(earlier, session);
      assert lines[..0] == [];
      for i := 0 to |lines|
        invariant Value() == After(earlier + SamplesOf(lines[..i], session))
        invariant Remembers(commands, lines[..i])
      {
        LineCollected(earlier, lines, i, session, commands);
        commands := CollectToolOutput(lines[i].payload, session, commands, lines[i].withinWindow);
      }
      assert lines[..|lines|] == lines;
      AfterIsWhole(earlier + SamplesOf(lines, session));
    }
  }

  // ---- What one session contributes ----

  /** A response item of a session file, and whether its timestamp is in the window. */
  datatype Line = Line(payload: Payload, withinWindow: bool)
  datatype Payload = Call(id: string, command: string) | Output(callId: Option<string>, tokens: Option<nat>) | Other

  const UNKNOWN_CALL := "unknown tool call"

  /** The command of the latest call with this id, in the window or not. */
  function Announced(lines: seq<Line>, id: string): Option<string> {
    if lines == [] then None
    else
      var last := lines[|lines| - 1].payload;
      if last.Call? && last.id == id then Some(last.command) else Announced(lines[..|lines| - 1], id)
  }

  /** An output inside the window that states its token count. */
  predicate Counted(line: Line) {
    line.withinWindow && line.payload.Output? && line.payload.tokens.Some?
  }

  function SamplesOf(lines: seq<Line>, session: string): seq<Sample> {
    if lines == [] then []
    else
      var before, last := lines[..|lines| - 1], lines[|lines| - 1];
      SamplesOf(before, session) +
      if Counted(last)
      then [Sample(last.payload.tokens.value, session, CommandOf(before, last.payload.callId))] else []
  }

  function CommandOf(before: seq<Line>, callId: Option<string>): string {
    if callId.None? || Announced(before, callId.value).None? then UNKNOWN_CALL
    else Announced(before, callId.value).value
  }

  ghost predicate Remembers(commands: map<string, string>, lines: seq<Line>) {
    forall id :: Announced(lines, id) == if id in commands then Some(commands[id]) else None
  }

  lemma NoLinesYet(earlier: seq<Sample>, session: string)
    ensures After(earlier + SamplesOf([], session)) == After(earlier)
    ensures Remembers(map[], [])
  {
    assert earlier + [] == earlier;
  }

  lemma LineCollected(
    earlier: seq<Sample>, lines: seq<Line>, i: nat, session: string, commands: map<string, string>)
    requires i < |lines| && Remembers(commands, lines[..i])
    ensures
      var payload := lines[i].payload;
      Remembers(if payload.Call? then commands[payload.id := payload.command] else commands, lines[..i + 1])
    ensures
      var before := After(earlier + SamplesOf(lines[..i], session));
      After(earlier + SamplesOf(lines[..i + 1], session)) ==
      if !Counted(lines[i]) then before
      else
        var callId := lines[i].payload.callId;
        var command := if callId.Some? && callId.value in commands then commands[callId.value] else UNKNOWN_CALL;
        Add(before, Sample(lines[i].payload.tokens.value, session, command))
  {
    hide Add, After;
    assert lines[..i + 1][..i] == lines[..i];
    var so := earlier + SamplesOf(lines[..i], session);
    if Counted(lines[i]) {
      var sample := Sample(lines[i].payload.tokens.value, session, CommandOf(lines[..i], lines[i].payload.callId));
      AfterLast(so, sample);
      assert so + [sample] == earlier + SamplesOf(lines[..i + 1], session);
    } else {
      assert SamplesOf(lines[..i + 1], session) == SamplesOf(lines[..i], session);
    }
  }

  // ---- Incremental against whole ----

  function Sum(s: seq<Sample>): nat {
    if s == [] then 0 else Sum(s[..|s| - 1]) + s[|s| - 1].tokens
  }

  function Large(s: seq<Sample>): seq<Sample> {
    if s == [] then []
    else Large(s[..|s| - 1]) + if s[|s| - 1].tokens >= LARGE_THRESHOLD then [s[|s| - 1]] else []
  }

  /** Dropping all but the first five before an insertion loses nothing of the
      first five after it. */
  lemma {:induction false} InsertIntoPrefix(t: seq<Sample>, x: Sample, n: nat)
    requires n <= |t|
    ensures |Insert(t[..n], x)| == n + 1 && |Insert(t, x)| == |t| + 1
    ensures Insert(t[..n], x)[..n] == Insert(t, x)[..n]
  {
    if t == [] {
    } else if n == 0 {
      InsertIntoPrefix(t[1..], x, 0);
    } else {
      InsertIntoPrefix(t[1..], x, n - 1);
      assert t[..n][1..] == t[1..][..n - 1];
      if t[0].tokens >= x.tokens {
        assert Insert(t, x)[..n] == [t[0]] + Insert(t[1..], x)[..n - 1];
        assert Insert(t[..n], x)[..n] == [t[0]] + Insert(t[1..][..n - 1], x)[..n - 1];
      }
    }
  }

  lemma SortedStays(t: seq<Sample>)
    requires Descending(t)
    ensures StableSort(t) == t
  {
    StableSortIsStable(t);
    StableSortIsUnique(StableSort(t), t);
  }

  lemma SortLast(s: seq<Sample>, x: Sample)
    ensures StableSort(s + [x]) == Insert(StableSort(s), x)
  {
    assert (s + [x])[..|s|] == s;
  }

  /** Everything computed at once from the full list of samples. */
  function Whole(all: seq<Sample>): Totals {
    Totals(|all|, Sum(all), |Large(all)|, Sum(Large(all)), Top(StableSort(all)))
  }

  lemma AfterLast(all: seq<Sample>, x: Sample)
    ensures After(all + [x]) == Add(After(all), x)
  {
    assert (all + [x])[..|all|] == all;
  }

  /** The kept samples are the first five of the stable descending sort of everything
      ever added, and the totals are sums over everything and over the large outputs. */
  lemma {:induction false} AfterIsWhole(all: seq<Sample>)
    ensures After(all) == Whole(all)
  {
    hide StableSort, Top, Sum, Large;
    if all == [] {
      NothingIsWhole();
    } else {
      var front, x := all[..|all| - 1], all[|all| - 1];
      AfterIsWhole(front);
      TopOfLonger(front, x);
      SumLast(front, x);
      LargeLast(front, x);
      assert front + [x] == all;
    }
  }

  lemma NothingIsWhole()
    ensures Whole([]) == NOTHING
  {
  }

  lemma TopOfLonger(front: seq<Sample>, x: Sample)
    ensures Top(StableSort(Top(StableSort(front)) + [x])) == Top(StableSort(front + [x]))
  {
    var t := StableSort(front);
    StableSortIsStable(front);
    SortedStays(Top(t));
    SortLast(Top(t), x);
    SortLast(front, x);
    hide StableSort, Insert;
    InsertIntoPrefix(t, x, |Top(t)|);
    InsertIntoPrefix(t, x, 0);
  }

  lemma SumLast(front: seq<Sample>, x: Sample)
    ensures Sum(front + [x]) == Sum(front) + x.tokens
  {
    assert (front + [x])[..|front|] == front;
  }

  lemma LargeLast(front: seq<Sample>, x: Sample)
    ensures |Large(front + [x])| == |Large(front)| + if x.tokens >= LARGE_THRESHOLD then 1 else 0
    ensures Sum(Large(front + [x])) == Sum(Large(front)) + if x.tokens >= LARGE_THRESHOLD then x.tokens else 0
  {
    assert (front + [x])[..|front|] == front;
    if x.tokens >= LARGE_THRESHOLD {
      assert (Large(front) + [x])[..|Large(front)|] == Large(front);
    } else {
      assert Large(front + [x]) == Large(front);
    }
  }

  // ---- What is kept and counted ----

  lemma {:induction false} InsertKeepsAll(t: seq<Sample>, x: Sample)
    ensures multiset(Insert(t, x)) == multiset(t) + multiset{x}
  {
    if t != [] && t[0].tokens >= x.tokens {
      InsertKeepsAll(t[1..], x);
      assert t == [t[0]] + t[1..];
    }
  }

  lemma {:induction false} SortKeepsAll(s: seq<Sample>)
    ensures multiset(StableSort(s)) == multiset(s)
  {
    if s != [] {
      SortKeepsAll(s[..|s| - 1]);
      InsertKeepsAll(StableSort(s[..|s| - 1]), s[|s| - 1]);
      assert s == s[..|s| - 1] + [s[|s| - 1]];
    }
  }

  /** Whatever samples came, in whatever order: five are kept, or all if there are fewer,
      in descending order, and none of the others is larger than a kept one. */
  lemma KeptAreLargest(all: seq<Sample>) returns (others: seq<Sample>)
    ensures
      var kept := After(all).samples;
      && |kept| == (if |all| < 5 then |all| else 5) && Descending(kept)
      && multiset(kept) + multiset(others) == multiset(all)
      && forall k, o :: k in kept && o in others ==> k.tokens >= o.tokens
  {
    hide StableSort, Sum, Large, After, WithTokens;
    AfterIsWhole(all);
    StableSortIsStable(all);
    SortKeepsAll(all);
    var sorted := StableSort(all);
    assert |multiset(sorted)| == |sorted| && |multiset(all)| == |all|;
    var n := if |all| < 5 then |all| else 5;
    others := sorted[n..];
    assert sorted == sorted[..n] + others;
    forall k, o | k in sorted[..n] && o in others
      ensures k.tokens >= o.tokens
    {
      var i :| 0 <= i < n && sorted[..n][i] == k;
      var j :| 0 <= j < |others| && others[j] == o;
      assert sorted[i].tokens >= sorted[n + j].tokens;
    }
  }

  ghost function LargePlaces(all: seq<Sample>): set<int> {
    set i | 0 <= i < |all| && all[i].tokens >= 5_000
  }

  /** Outputs of 5000 tokens and more are the large ones. */
  lemma {:induction false} LargeAreCounted(all: seq<Sample>)
    ensures After(all).largeCalls == |LargePlaces(all)| && After(all).calls == |all|
  {
    hide Top, StableSort;
    if all == [] {
      assert LargePlaces(all) == {};
    } else {
      var n := |all| - 1;
      LargeAreCounted(all[..n]);
      assert forall i :: 0 <= i < n ==> all[..n][i] == all[i];
      assert LargePlaces(all) == LargePlaces(all[..n]) + if all[n].tokens >= 5_000 then {n} else {};
    }
  }

  /** Line i announces the call, and no later line announces one with its id. */
  ghost predicate LatestCall(lines: seq<Line>, i: nat, id: string)
    requires i < |lines|
  {
    && lines[i].payload.Call? && lines[i].payload.id == id
    && forall j :: i < j < |lines| && lines[j].payload.Call? ==> lines[j].payload.id != id
  }

  lemma {:induction false} AnnouncedIsLatest(lines: seq<Line>, id: string)
    ensures Announced(lines, id).None? <==>
      forall i :: 0 <= i < |lines| && lines[i].payload.Call? ==> lines[i].payload.id != id
    ensures forall i :: 0 <= i < |lines| && LatestCall(lines, i, id) ==>
      Announced(lines, id) == Some(lines[i].payload.command)
  {
    if lines != [] {
      var n := |lines| - 1;
      var front := lines[..n];
      AnnouncedIsLatest(front, id);
      assert forall i :: 0 <= i < n ==> front[i] == lines[i];
      forall i | 0 <= i < n && LatestCall(lines, i, id)
        ensures LatestCall(front, i, id)
      {
      }
    }
  }

  ghost predicate Reports(line: Line) {
    line.withinWindow && line.payload.Output? && line.payload.tokens.Some?
  }

  ghost function ReportPlaces(lines: seq<Line>): set<int> {
    set i | 0 <= i < |lines| && Reports(lines[i])
  }

  /** A session contributes one sample for each output inside the window that states its
      size, in order: the k-th is the k-th such line's. */
  lemma {:induction false} SampleOfLine(lines: seq<Line>, session: string, i: nat)
    requires i < |lines| && Reports(lines[i])
    ensures |SamplesOf(lines, session)| == |ReportPlaces(lines)|
    ensures |ReportPlaces(lines[..i])| < |SamplesOf(lines, session)|
    ensures
      var sample := SamplesOf(lines, session)[|ReportPlaces(lines[..i])|];
      sample == Sample(lines[i].payload.tokens.value, session, CommandOf(lines[..i], lines[i].payload.callId))
    decreases |lines|
  {
    var n := |lines| - 1;
    var front := lines[..n];
    SamplesCounted(front, session);
    SamplesCounted(lines, session);
    if i < n {
      SampleOfLine(front, session, i);
      assert front[..i] == lines[..i];
    }
  }

  lemma {:induction false} SamplesCounted(lines: seq<Line>, session: string)
    ensures |SamplesOf(lines, session)| == |ReportPlaces(lines)|
  {
    if lines == [] {
      assert ReportPlaces(lines) == {};
    } else {
      var n := |lines| - 1;
      SamplesCounted(lines[..n], session);
      assert forall i :: 0 <= i < n ==> lines[..n][i] == lines[i];
      assert ReportPlaces(lines) == ReportPlaces(lines[..n]) + if Reports(lines[n]) then {n} else {};
    }
  }

  /** A sample names the latest call announced with its id before it, in or outside the
      window, and is unknown without one. */
  lemma CommandIsLatestCall(before: seq<Line>, callId: Option<string>)
    ensures callId.None? ==> CommandOf(before, callId) == "unknown tool call"
    ensures callId.Some? ==>
      && ((forall i :: 0 <= i < |before| && before[i].payload.Call? ==> before[i].payload.id != callId.value) ==>
            CommandOf(before, callId) == "unknown tool call")
      && (forall i :: 0 <= i < |before| && LatestCall(before, i, callId.value) ==>
            CommandOf(before, callId) == before[i].payload.command)
  {
    if callId.Some? {
      AnnouncedIsLatest(before, callId.value);
    }
  }
}
