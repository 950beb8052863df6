/** The cached reader of the configuration file. It looks at the file's stamp before it
    takes its lock, and reads the file while it holds it, so callers interleave with each
    other and with changes of the file. */
module ConfigReader {
  import opened Text

  datatype ClientConfig = ClientConfig(host: string, port: int, tls: bool, apiKeys: set<string>)

  datatype Stamp = Stamp(modTime: int, size: int)

  /** One content of the file; parsed is None when it does not decode. */
  datatype Version = Version(stamp: Stamp, parsed: Option<ClientConfig>)

  datatype Reader = Unloaded | Loaded(stamp: Stamp, value: ClientConfig)

  predicate Matches(r: Reader, info: Stamp) {
    r.Loaded? && r.stamp == info
  }

  /** What decoding a file that was read leaves behind. */
  function Stored(r: Reader, info: Stamp, parsed: Option<ClientConfig>): Reader {
    if parsed.Some? then Loaded(info, parsed.value) else r
  }

  /** The locked section as a whole: content is what a read of the file gives, None when
      the read fails. */
  function Section(r: Reader, info: Stamp, content: Option<Version>): (Reader, Option<ClientConfig>) {
    if Matches(r, info) then (r, Some(r.value))
    else if content.None? then (r, None)
    else (Stored(r, info, content.value.parsed), content.value.parsed)
  }

  class CPAConfigReader {
    var loaded: bool
    var stamp: Stamp
    var value: ClientConfig

    constructor ()
      ensures View() == Unloaded
    {
      loaded := false;
      stamp := Stamp(0, 0);
      value := ClientConfig("", 0, false, {});
    }

    ghost function View(): Reader
      reads this
    {
      if loaded then Loaded(stamp, value) else Unloaded
    }

    method Snapshot(info: Option<Stamp>, content: Option<Version>) returns (r: Option<ClientConfig>)
      modifies this
      ensures info.None? ==> r.None? && View() == old(View())
      ensures info.Some? ==> (View(), r) == Section(old(View()), info.value, content)
    {
      if info.None? {
        return None;
      }
      if loaded && info.value == stamp {
        return Some(value);
      }
      if content.None? || content.value.parsed.None? {
        return None;
      }
      stamp := info.value;
      loaded := true;
      value := content.value.parsed.value;
      return Some(value);
    }
  }

  // ---------------------------------------------------------------- the system

  /** What a caller has seen: the version whose stamp it took, the version it read. */
  datatype Phase = Statted(seen: nat) | Reading(seen: nat) | Decoding(seen: nat, got: nat)

  /** A successful Snapshot: which version's stamp it looked at, and which version it
      returned. */
  datatype Served = Served(seen: nat, version: nat, value: ClientConfig)

  /** stampOf and valueOf say which versions the cached stamp and value belong to. */
  datatype State = State(
    current: nat,
    reader: Reader,
    stampOf: nat,
    valueOf: nat,
    holder: Option<nat>,
    tasks: map<nat, Phase>,
    served: seq<Served>)

  datatype Event =
    | Write
    | Stat(task: nat)
    | Enter(task: nat)
    | ReadFile(task: nat, readable: bool)
    | Finish(task: nat)

  const Init := State(0, Unloaded, 0, 0, None, map[], [])

  predicate In(s: State, task: nat, reading: bool, decoding: bool) {
    task in s.tasks && s.tasks[task].Reading? == reading && s.tasks[task].Decoding? == decoding
  }

  /** file lists the versions the file goes through. */
  predicate Enabled(file: seq<Version>, s: State, e: Event) {
    match e
    case Write => s.current + 1 < |file|
    case Stat(t) => t !in s.tasks && s.current < |file|
    case Enter(t) => In(s, t, false, false) && s.holder.None? && s.tasks[t].seen < |file|
    case ReadFile(t, _) => In(s, t, true, false)
    case Finish(t) => In(s, t, false, true) && s.tasks[t].seen < |file| && s.tasks[t].got < |file|
  }

  function Leave(s: State, task: nat): State {
    s.(tasks := s.tasks - {task}, holder := None)
  }

  function DoEnter(file: seq<Version>, s: State, t: nat): State
    requires Enabled(file, s, Enter(t))
  {
    var seen := s.tasks[t].seen;
    if Matches(s.reader, file[seen].stamp)
    then Leave(s, t).(served := s.served + [Served(seen, s.valueOf, s.reader.value)])
    else s.(tasks := s.tasks[t := Reading(seen)], holder := Some(t))
  }

  function DoFinish(file: seq<Version>, s: State, t: nat): State
    requires Enabled(file, s, Finish(t))
  {
    var seen, got := s.tasks[t].seen, s.tasks[t].got;
    if file[got].parsed.None? then Leave(s, t)
    else
      Leave(s, t).(reader := Stored(s.reader, file[seen].stamp, file[got].parsed),
                   stampOf := seen, valueOf := got,
                   served := s.served + [Served(seen, got, file[got].parsed.value)])
  }

  function Next(file: seq<Version>, s: State, e: Event): State
    requires Enabled(file, s, e)
  {
    match e
    case Write => s.(current := s.current + 1)
    case Stat(t) => s.(tasks := s.tasks[t := Statted(s.current)])
    case Enter(t) => DoEnter(file, s, t)
    case ReadFile(t, readable) =>
      if readable then s.(tasks := s.tasks[t := Decoding(s.tasks[t].seen, s.current)]) else Leave(s, t)
    case Finish(t) => DoFinish(file, s, t)
  }

  predicate Runs(file: seq<Version>, s: State, events: seq<Event>)
    decreases |events|
  {
    events == [] || (Enabled(file, s, events[0]) && Runs(file, Next(file, s, events[0]), events[1..]))
  }

  function After(file: seq<Version>, s: State, events: seq<Event>): State
    requires Runs(file, s, events)
    decreases |events|
  {
    if events == [] then s else After(file, Next(file, s, events[0]), events[1..])
  }

  // ---------------------------------------------------------------- the invariant

  /** stamp version <= value version <= current version. */
  predicate CacheOk(file: seq<Version>, s: State) {
    && s.current < |file|
    && (s.reader.Loaded? ==>
          && s.stampOf <= s.valueOf <= s.current
          && s.reader.stamp == file[s.stampOf].stamp
          && file[s.valueOf].parsed == Some(s.reader.value))
  }

  predicate TaskOk(s: State, t: nat) {
    if t !in s.tasks then s.holder != Some(t) else
      match s.tasks[t]
      case Statted(seen) => seen <= s.current && s.holder != Some(t)
      case Reading(seen) => seen <= s.current && s.holder == Some(t)
      case Decoding(seen, got) =>
        && seen <= got <= s.current && s.holder == Some(t)
        && (s.reader.Loaded? ==> s.valueOf <= got)
  }

  /** A return is of the version that was looked at or a later one, unless that version
      has the stamp of one that is no later than the one returned. */
  predicate Explained(file: seq<Version>, r: Served) {
    && r.seen < |file| && r.version < |file|
    && file[r.version].parsed == Some(r.value)
    && (r.seen <= r.version || exists i | 0 <= i <= r.version :: file[i].stamp == file[r.seen].stamp)
  }

  predicate ServedOk(file: seq<Version>, s: State) {
    && (forall i | 0 <= i < |s.served| :: Explained(file, s.served[i]))
    && (forall i, j | 0 <= i < j < |s.served| :: s.served[i].version <= s.served[j].version)
    && (s.served != [] ==> s.reader.Loaded?)
    && (forall i | 0 <= i < |s.served| :: s.served[i].version <= s.valueOf)
  }

  ghost predicate Inv(file: seq<Version>, s: State) {
    CacheOk(file, s) && ServedOk(file, s) && forall t :: TaskOk(s, t)
  }

  lemma StepKeepsCache(file: seq<Version>, s: State, e: Event)
    requires Inv(file, s) && Enabled(file, s, e)
    ensures CacheOk(file, Next(file, s, e))
  {
    assert e.Finish? ==> TaskOk(s, e.task);
  }

  lemma StepKeepsTask(file: seq<Version>, s: State, e: Event, t: nat)
    requires Inv(file, s) && Enabled(file, s, e)
    ensures TaskOk(Next(file, s, e), t)
  {
    assert TaskOk(s, t);
    assert !e.Write? ==> TaskOk(s, e.task);
  }

  lemma NothingServed(file: seq<Version>, s: State, s': State)
    requires ServedOk(file, s)
    requires s'.served == s.served && s'.reader == s.reader && s'.valueOf == s.valueOf
    ensures ServedOk(file, s')
  {
  }

  lemma OneServed(file: seq<Version>, s: State, s': State, r: Served)
    requires ServedOk(file, s)
    requires s'.served == s.served + [r] && Explained(file, r)
    requires s'.reader.Loaded? && r.version == s'.valueOf && (s.reader.Loaded? ==> s.valueOf <= s'.valueOf)
    ensures ServedOk(file, s')
  {
    hide Explained;
    assert forall i | 0 <= i < |s.served| :: s'.served[i] == s.served[i];
  }

  lemma StepKeepsServed(file: seq<Version>, s: State, e: Event)
    requires Inv(file, s) && Enabled(file, s, e)
    ensures ServedOk(file, Next(file, s, e))
  {
    hide ServedOk;
    var next := Next(file, s, e);
    assert e.Finish? ==> TaskOk(s, e.task);
    if next.served == s.served {
      NothingServed(file, s, next);
    } else {
      OneServed(file, s, next, next.served[|s.served|]);
    }
  }

  lemma StepKeepsInv(file: seq<Version>, s: State, e: Event)
    requires Inv(file, s) && Enabled(file, s, e)
    ensures Inv(file, Next(file, s, e))
  {
    StepKeepsCache(file, s, e);
    StepKeepsServed(file, s, e);
    hide Next, Enabled, CacheOk, ServedOk;
    forall t
      ensures TaskOk(Next(file, s, e), t)
    {
      StepKeepsTask(file, s, e, t);
    }
  }

  lemma {:induction false} RunKeepsInv(file: seq<Version>, s: State, events: seq<Event>)
    requires Inv(file, s) && Runs(file, s, events)
    ensures Inv(file, After(file, s, events))
    decreases |events|
  {
    if events != [] {
      StepKeepsInv(file, s, events[0]);
      RunKeepsInv(file, Next(file, s, events[0]), events[1..]);
    }
  }

  ghost predicate Reachable(file: seq<Version>, s: State) {
    exists events :: Runs(file, Init, events) && s == After(file, Init, events)
  }

  /** In every interleaving the cached stamp belongs to a version no later than the
      cached value does, and returned versions never go backwards in the order in which
      callers leave the lock; nothing is assumed of the stamps. */
  lemma VersionsNeverGoBack(file: seq<Version>, s: State)
    requires file != [] && Reachable(file, s)
    ensures CacheOk(file, s) && ServedOk(file, s)
  {
    var events :| Runs(file, Init, events) && s == After(file, Init, events);
    assert Inv(file, Init);
    RunKeepsInv(file, Init, events);
  }

  predicate AllFresh(s: State) {
    forall i | 0 <= i < |s.served| :: s.served[i].seen <= s.served[i].version
  }

  /** A version that decodes stands between two with the same stamp. */
  predicate Confusable(file: seq<Version>) {
    exists i, k, j | 0 <= i <= k < j < |file| :: file[i].stamp == file[j].stamp && file[k].parsed.Some?
  }

  /** Over a given history of the file, every successful Snapshot of every interleaving
      returns a version no older than the one it looked at exactly when no version that
      decodes stands between two with the same stamp. */
  lemma FreshExactlyWithoutConfusion(file: seq<Version>)
    requires file != []
    ensures (forall s :: Reachable(file, s) ==> AllFresh(s)) <==> !Confusable(file)
  {
    if Confusable(file) {
      var i: nat, k: nat, j: nat :| i <= k < j < |file| && file[i].stamp == file[j].stamp && file[k].parsed.Some?;
      var s := StaleReturn(file, i, k, j);
      assert Reachable(file, s) && !AllFresh(s);
    } else {
      forall s | Reachable(file, s)
        ensures AllFresh(s)
      {
        VersionsNeverGoBack(file, s);
        forall n | 0 <= n < |s.served|
          ensures s.served[n].seen <= s.served[n].version
        {
          assert Explained(file, s.served[n]);
        }
      }
    }
  }

  /** In particular unique stamps are enough. */
  lemma UniqueStampsAreEnough(file: seq<Version>, s: State)
    requires file != [] && Reachable(file, s)
    requires forall i, j | 0 <= i < j < |file| :: file[i].stamp != file[j].stamp
    ensures AllFresh(s)
  {
    assert !Confusable(file);
    FreshExactlyWithoutConfusion(file);
  }

  // ---------------------------------------------------------------- the stale run

  function Writes(n: nat): (r: seq<Event>)
    ensures |r| == n
  {
    if n == 0 then [] else [Write] + Writes(n - 1)
  }

  lemma {:induction false} WritesRun(file: seq<Version>, s: State, n: nat)
    requires s.current + n < |file|
    ensures Runs(file, s, Writes(n)) && After(file, s, Writes(n)) == s.(current := s.current + n)
    decreases n
  {
    if n > 0 {
      assert Writes(n)[1..] == Writes(n - 1);
      WritesRun(file, s.(current := s.current + 1), n - 1);
    }
  }

  lemma {:induction false} RunsConcat(file: seq<Version>, s: State, a: seq<Event>, b: seq<Event>)
    requires Runs(file, s, a) && Runs(file, After(file, s, a), b)
    ensures Runs(file, s, a + b) && After(file, s, a + b) == After(file, After(file, s, a), b)
    decreases |a|
  {
    if a == [] {
      assert a + b == b;
    } else {
      assert (a + b)[0] == a[0] && (a + b)[1..] == a[1..] + b;
      RunsConcat(file, Next(file, s, a[0]), a[1..], b);
    }
  }

  lemma OneStep(file: seq<Version>, s: State, e: Event)
    requires Enabled(file, s, e)
    ensures Runs(file, s, [e]) && After(file, s, [e]) == Next(file, s, e)
  {
    hide Enabled, Next;
    assert [e][1..] == [] && After(file, Next(file, s, e), []) == Next(file, s, e);
  }

  lemma ReachableStep(file: seq<Version>, s: State, e: Event)
    requires Reachable(file, s) && Enabled(file, s, e)
    ensures Reachable(file, Next(file, s, e))
  {
    var events :| Runs(file, Init, events) && s == After(file, Init, events);
    OneStep(file, s, e);
    RunsConcat(file, Init, events, [e]);
  }

  lemma ReachableWrites(file: seq<Version>, s: State, current: nat)
    requires Reachable(file, s) && s.current <= current < |file|
    ensures Reachable(file, s.(current := current))
  {
    var events :| Runs(file, Init, events) && s == After(file, Init, events);
    WritesRun(file, s, current - s.current);
    RunsConcat(file, Init, events, Writes(current - s.current));
  }

  /** Look at version i, read version k, and let a second caller look at version j. */
  lemma StaleReturn(file: seq<Version>, i: nat, k: nat, j: nat) returns (s: State)
    requires i <= k < j < |file| && file[i].stamp == file[j].stamp && file[k].parsed.Some?
    ensures Reachable(file, s) && s.served != [] && s.served[|s.served| - 1].seen == j
    ensures s.served[|s.served| - 1].version == k
  {
    assert Runs(file, Init, []) && After(file, Init, []) == Init;
    s := Init;
    ReachableWrites(file, s, i);
    s := s.(current := i);
    ReachableStep(file, s, Stat(0));
    s := Next(file, s, Stat(0));
    ReachableWrites(file, s, k);
    s := s.(current := k);
    ReachableStep(file, s, Enter(0));
    s := Next(file, s, Enter(0));
    ReachableStep(file, s, ReadFile(0, true));
    s := Next(file, s, ReadFile(0, true));
    ReachableStep(file, s, Finish(0));
    s := Next(file, s, Finish(0));
    ReachableWrites(file, s, j);
    s := s.(current := j);
    ReachableStep(file, s, Stat(1));
    s := Next(file, s, Stat(1));
    ReachableStep(file, s, Enter(1));
    s := Next(file, s, Enter(1));
  }

  // ---------------------------------------------------------------- the section

  /** A caller that holds the lock without the file changing under it does what the
      section does as a whole. */
  lemma StepsAreTheSection(file: seq<Version>, s: State, t: nat, readable: bool)
    requires Inv(file, s) && Enabled(file, s, Enter(t))
    ensures var info := file[s.tasks[t].seen].stamp;
            var (reader, r) := Section(s.reader, info, if readable then Some(file[s.current]) else None);
            var events := if Matches(s.reader, info) then [Enter(t)]
                          else if readable then [Enter(t), ReadFile(t, true), Finish(t)]
                          else [Enter(t), ReadFile(t, false)];
            && Runs(file, s, events)
            && After(file, s, events).reader == reader
            && After(file, s, events).holder.None?
            && (if r.None? then After(file, s, events).served == s.served
                else |After(file, s, events).served| == |s.served| + 1
                     && After(file, s, events).served[|s.served|].value == r.value)
  {
    assert TaskOk(s, t);
    var s1 := Next(file, s, Enter(t));
    OneStep(file, s, Enter(t));
    if !Matches(s.reader, file[s.tasks[t].seen].stamp) {
      var s2 := Next(file, s1, ReadFile(t, readable));
      TwoSteps(file, s, Enter(t), ReadFile(t, readable));
      if readable {
        var s3 := Next(file, s2, Finish(t));
        OneStep(file, s2, Finish(t));
        RunsConcat(file, s, [Enter(t), ReadFile(t, true)], [Finish(t)]);
        assert [Enter(t), ReadFile(t, true)] + [Finish(t)] == [Enter(t), ReadFile(t, true), Finish(t)];
      }
    }
    hide Runs, After;
  }

  lemma TwoSteps(file: seq<Version>, s: State, a: Event, b: Event)
    requires Enabled(file, s, a) && Enabled(file, Next(file, s, a), b)
    ensures Runs(file, s, [a, b]) && After(file, s, [a, b]) == Next(file, Next(file, s, a), b)
  {
    OneStep(file, s, a);
    OneStep(file, Next(file, s, a), b);
    hide Enabled, Next;
    RunsConcat(file, s, [a], [b]);
    assert [a] + [b] == [a, b];
  }
}
