/** The configuration-hash drift protocol: what a gate-evaluating command and
    `config set` append to the audit log, what the storage backend remembers of
    the last hash appended, and what survives when any call fails or the
    process dies between two of them. */
module ConfigHash {
  import opened Wrappers

  /** What the audit log holds. The first two events set the recorded hash; an
      override names the hash it overrode and does not replace it. */
  datatype Event =
    | ConfigChanged(key: string, oldHash: string, newHash: string)
    | DriftObserved(oldHash: string, newHash: string, observedAt: string)
    | ConfigOverride(flag: string, value: string, configHash: string)
    | OtherEvent

  predicate SetsHash(e: Event) {
    e.ConfigChanged? || e.DriftObserved?
  }

  /** The new hash of the last hash-setting event. */
  function LastSet(log: seq<Event>): Option<string> {
    if log == [] then None
    else if SetsHash(log[|log| - 1]) then Some(log[|log| - 1].newHash)
    else LastSet(log[..|log| - 1])
  }

  /** A backend's memory of the last hash: sure of one, or unsure. */
  datatype Memory = Known(hash: string) | Unsure

  /** The log and, for a backend that keeps one, the memory beside it. */
  datatype Store = Store(log: seq<Event>, memory: Option<Memory>)

  /** How one call goes. A call that fails or dies may or may not have taken
      effect; `landed` says which. */
  datatype Fate = Done | Fails(landed: bool) | Dies(landed: bool)

  /** How reading the memory goes. An unsure backend either re-reads its log,
      perhaps re-seating the memory, or answers that nothing was recorded. */
  datatype ReadFate = Reads(rescan: bool, reseat: bool) | ReadFails | ReadDies

  datatype Status = Ok | Error | Dead

  datatype LastHash = Found(hash: string) | NotFound | Unreadable | ReaderDied

  /** How an attempt to record a hash ended. */
  datatype Recording = Recorded | NotRecorded | LastHashNotKept | Died

  /** How the three calls of one recording go. */
  datatype Fates = Fates(before: Fate, append: Fate, after: Fate)

  // ---- the backend's contract ----

  function ReadLast(s: Store, fate: ReadFate): (Store, LastHash)
    requires s.memory.Some?
  {
    match fate
    case ReadFails => (s, Unreadable)
    case ReadDies => (s, ReaderDied)
    case Reads(rescan, reseat) =>
      if s.memory.value.Known? then (s, Found(s.memory.value.hash))
      else if rescan && LastSet(s.log).Some? then
        var h := LastSet(s.log).value;
        (if reseat then s.(memory := Some(Known(h))) else s, Found(h))
      else (s, NotFound)
  }

  function StatusOf(fate: Fate): Status {
    match fate
    case Done => Ok
    case Fails(_) => Error
    case Dies(_) => Dead
  }

  predicate TakesEffect(fate: Fate) {
    fate.Done? || fate.landed
  }

  function Forget(s: Store, fate: Fate): Store
    requires s.memory.Some?
  {
    if TakesEffect(fate) then s.(memory := Some(Unsure)) else s
  }

  /** An append that fails or dies leaves the log as it was, unless its line had
      already reached it. */
  function Append(s: Store, e: Event, fate: Fate): Store {
    if TakesEffect(fate) then s.(log := s.log + [e]) else s
  }

  function Remember(s: Store, hash: string, fate: Fate): Store
    requires s.memory.Some?
  {
    if TakesEffect(fate) then s.(memory := Some(Known(hash))) else s
  }

  // ---- one recording, one gate, one `config set` ----

  function Record(s: Store, e: Event, hash: string, f: Fates): (Store, Recording) {
    var s1 := if s.memory.Some? then Forget(s, f.before) else s;
    if s.memory.Some? && !f.before.Done? then
      (s1, if f.before.Fails? then NotRecorded else Died)
    else
      var s2 := Append(s1, e, f.append);
      if !f.append.Done? then (s2, if f.append.Fails? then NotRecorded else Died)
      else if s.memory.None? then (s2, Recorded)
      else
        var s3 := Remember(s2, hash, f.after);
        (s3, match f.after case Done => Recorded case Fails(_) => LastHashNotKept case Dies(_) => Died)
  }

  /** A configuration file as a command meets it: refused by the loader, loaded
      but impossible to hash, or loaded under a hash. */
  datatype Loaded = Rejected | Unhashable | Hashed(hash: string)

  /** How observing the configuration ended: the hash the gate is evaluated
      under, a refusal (with the recording that failed, if one was attempted),
      or the death of the process. */
  datatype Gate =
    | Evaluated(hash: string, recorded: bool)
    | Refused(attempt: Option<Recording>)
    | Interrupted(attempted: bool)

  function Observe(s: Store, config: Loaded, read: ReadFate, f: Fates): (Store, Gate) {
    if !config.Hashed? then (s, Refused(None))
    else if s.memory.None? then
      Drift(s, DriftObserved("", config.hash, "every_gate"), config.hash, f)
    else
      var (s1, last) := ReadLast(s, read);
      match last
      case Unreadable => (s1, Refused(None))
      case ReaderDied => (s1, Interrupted(false))
      case Found(h) =>
        if h == config.hash then (s1, Evaluated(config.hash, false))
        else Drift(s1, DriftObserved(h, config.hash, "first_use"), config.hash, f)
      case NotFound => Drift(s1, DriftObserved("", config.hash, "first_use"), config.hash, f)
  }

  function Drift(s: Store, e: Event, hash: string, f: Fates): (Store, Gate) {
    var (s', r) := Record(s, e, hash, f);
    (s', match r
         case Recorded => Evaluated(hash, true)
         case Died => Interrupted(true)
         case _ => Refused(Some(r)))
  }

  /** What `config set` reports of the recording: nothing, a notice saying
      whether the change reached the log, a hashing error, or its death. */
  datatype SetReport =
    | Silent(appended: bool)
    | Notice(recorded: bool)
    | HashingFailed
    | SetDied

  function RecordChange(s: Store, key: string, before: Loaded, after: Loaded, opens: bool, f: Fates): (Store, SetReport) {
    match after
    case Rejected => (s, Silent(false))
    case Unhashable => (s, HashingFailed)
    case Hashed(newHash) =>
      if before.Unhashable? then (s, HashingFailed)
      else
        var oldHash := if before.Rejected? then "" else before.hash;
        if oldHash == newHash then (s, Silent(false))
        else if !opens then (s, Notice(false))
        else
          var (s', r) := Record(s, ConfigChanged(key, oldHash, newHash), newHash, f);
          (s', match r
               case Recorded => Silent(true)
               case NotRecorded => Notice(false)
               case LastHashNotKept => Notice(true)
               case Died => SetDied)
  }

  datatype Override = Override(flag: string, value: string)

  /** One event per override, stopping at the first the sink refuses. */
  function Overrides(s: Store, hash: string, os: seq<Override>, fates: seq<Fate>): (Store, Status)
    requires |fates| == |os|
    decreases |os|
  {
    if os == [] then (s, Ok)
    else
      var s1 := Append(s, ConfigOverride(os[0].flag, os[0].value, hash), fates[0]);
      if fates[0].Done? then Overrides(s1, hash, os[1..], fates[1..]) else (s1, StatusOf(fates[0]))
  }

  // ---- the protocol in place ----

  /** The storage backend of one invocation. */
  class Backend {
    var log: seq<Event>
    var memory: Option<Memory>

    function State(): Store
      reads this
    {
      Store(log, memory)
    }

    constructor (s: Store)
      ensures State() == s
    {
      log, memory := s.log, s.memory;
    }

    method LastConfigHash(fate: ReadFate) returns (r: LastHash)
      requires memory.Some?
      modifies this`memory
      ensures (State(), r) == ReadLast(old(State()), fate)
    {
      match fate {
        case ReadFails => r := Unreadable;
        case ReadDies => r := ReaderDied;
        case Reads(rescan, reseat) =>
          if memory.value.Known? {
            return Found(memory.value.hash);
          }
          var inLog := LastSet(log);
          if !rescan || inLog.None? {
            return NotFound;
          }
          if reseat {
            memory := Some(Known(inLog.value));
          }
          r := Found(inLog.value);
      }
    }

    method BeforeConfigHashAppend(fate: Fate) returns (r: Status)
      requires memory.Some?
      modifies this`memory
      ensures State() == Forget(old(State()), fate) && r == StatusOf(fate)
    {
      if TakesEffect(fate) {
        memory := Some(Unsure);
      }
      r := StatusOf(fate);
    }

    method RecordEvent(e: Event, fate: Fate) returns (r: Status)
      modifies this`log
      ensures State() == Append(old(State()), e, fate) && r == StatusOf(fate)
    {
      if TakesEffect(fate) {
        log := log + [e];
      }
      r := StatusOf(fate);
    }

    method AfterConfigHashAppend(hash: string, fate: Fate) returns (r: Status)
      requires memory.Some?
      modifies this`memory
      ensures State() == Remember(old(State()), hash, fate) && r == StatusOf(fate)
    {
      if TakesEffect(fate) {
        memory := Some(Known(hash));
      }
      r := StatusOf(fate);
    }

    method RecordConfigHash(e: Event, hash: string, f: Fates) returns (r: Recording)
      modifies this
      ensures (State(), r) == Record(old(State()), e, hash, f)
    {
      if memory.Some? {
        var b := BeforeConfigHashAppend(f.before);
        if b != Ok {
          return if b == Error then NotRecorded else Died;
        }
      }
      var a := RecordEvent(e, f.append);
      if a != Ok {
        return if a == Error then NotRecorded else Died;
      }
      if memory.None? {
        return Recorded;
      }
      var k := AfterConfigHashAppend(hash, f.after);
      match k {
        case Ok => r := Recorded;
        case Error => r := LastHashNotKept;
        case Dead => r := Died;
      }
    }

    method ObserveGateConfig(config: Loaded, read: ReadFate, f: Fates) returns (r: Gate)
      modifies this
      ensures (State(), r) == Observe(old(State()), config, read, f)
    {
      if !config.Hashed? {
        return Refused(None);
      }
      var last, observedAt := "", "first_use";
      if memory.None? {
        observedAt := "every_gate";
      } else {
        var answer := LastConfigHash(read);
        match answer {
          case Unreadable => return Refused(None);
          case ReaderDied => return Interrupted(false);
          case NotFound =>
          case Found(h) =>
            if h == config.hash {
              return Evaluated(config.hash, false);
            }
            last := h;
        }
      }
      var rec := RecordConfigHash(DriftObserved(last, config.hash, observedAt), config.hash, f);
      match rec {
        case Recorded => r := Evaluated(config.hash, true);
        case Died => r := Interrupted(true);
        case _ => r := Refused(Some(rec));
      }
    }

    method RecordConfigChange(key: string, before: Loaded, after: Loaded, opens: bool, f: Fates) returns (r: SetReport)
      modifies this
      ensures (State(), r) == RecordChange(old(State()), key, before, after, opens, f)
    {
      if after.Rejected? {
        return Silent(false);
      }
      if after.Unhashable? {
        return HashingFailed;
      }
      var oldHash := "";
      if !before.Rejected? {
        if before.Unhashable? {
          return HashingFailed;
        }
        oldHash := before.hash;
      }
      if oldHash == after.hash {
        return Silent(false);
      }
      if !opens {
        return Notice(false);
      }
      var rec := RecordConfigHash(ConfigChanged(key, oldHash, after.hash), after.hash, f);
      match rec {
        case Recorded => r := Silent(true);
        case NotRecorded => r := Notice(false);
        case LastHashNotKept => r := Notice(true);
        case Died => r := SetDied;
      }
    }

    method RecordConfigOverrides(hash: string, overrides: seq<Override>, fates: seq<Fate>) returns (r: Status)
      requires |fates| == |overrides|
      modifies this`log
      ensures (State(), r) == Overrides(old(State()), hash, overrides, fates)
    {
      var i := 0;
      while i < |overrides|
        invariant 0 <= i <= |overrides|
        invariant Overrides(State(), hash, overrides[i..], fates[i..]) == Overrides(old(State()), hash, overrides, fates)
      {
        r := RecordEvent(ConfigOverride(overrides[i].flag, overrides[i].value, hash), fates[i]);
        if r != Ok {
          return;
        }
        i := i + 1;
      }
      r := Ok;
    }
  }

  // ---- one operation at a time ----

  /** A memory sure of a hash agrees with the log. */
  predicate Coherent(s: Store) {
    s.memory.Some? && s.memory.value.Known? ==> LastSet(s.log) == Some(s.memory.value.hash)
  }

  /** Every drift event names as old hash either nothing or the hash the log
      really carried before it. */
  predicate OldHashesTrue(log: seq<Event>) {
    forall i :: 0 <= i < |log| && log[i].DriftObserved? && log[i].oldHash != "" ==>
      LastSet(log[..i]) == Some(log[i].oldHash)
  }

  lemma {:induction false} AppendOldHash(log: seq<Event>, e: Event)
    requires OldHashesTrue(log)
    requires e.DriftObserved? && e.oldHash != "" ==> LastSet(log) == Some(e.oldHash)
    ensures OldHashesTrue(log + [e])
  {
    forall i | 0 <= i < |log + [e]| && (log + [e])[i].DriftObserved? && (log + [e])[i].oldHash != ""
      ensures LastSet((log + [e])[..i]) == Some((log + [e])[i].oldHash)
    {
      assert (log + [e])[..i] == log[..i];
      assert log[..|log|] == log;
    }
  }

  /** The append is reached, and fails after its line has reached the log. */
  predicate FailsLate(s: Store, f: Fates) {
    (s.memory.None? || f.before.Done?) && f.append == Fails(true)
  }

  /** Whatever fails or dies, a recording leaves the memory coherent, the log
      either untouched or extended by exactly its event. The event is there when
      the report is "recorded" or "last hash not kept", and is not when it is "not
      recorded" - except after an append that failed late. */
  lemma RecordKeepsTheLogAndMemoryTogether(s: Store, e: Event, hash: string, f: Fates)
    requires Coherent(s) && SetsHash(e) && e.newHash == hash
    ensures var (s', r) := Record(s, e, hash, f);
            && Coherent(s')
            && (s'.memory.Some? <==> s.memory.Some?)
            && (s'.log == s.log || s'.log == s.log + [e])
            && (r.Recorded? || r.LastHashNotKept? ==> s'.log == s.log + [e])
            && (r.NotRecorded? ==> (s'.log == s.log <==> !FailsLate(s, f)))
            && (r.Recorded? && s.memory.Some? ==> s'.memory == Some(Known(hash)))
  {
    assert (s.log + [e])[..|s.log|] == s.log;
  }

  /** No gate is evaluated under a configuration the log does not carry: an
      evaluated gate names the hash in force, and the log's last hash-setting
      event, after it, is that hash. */
  lemma EvaluatedGateIsLogged(s: Store, config: Loaded, read: ReadFate, f: Fates)
    requires Coherent(s)
    ensures var (s', g) := Observe(s, config, read, f);
            && Coherent(s')
            && (g.Evaluated? ==> config == Hashed(g.hash) && LastSet(s'.log) == Some(g.hash))
            && (g.Evaluated? && !g.recorded ==> s'.log == s.log)
  {
    if config.Hashed? {
      var (s1, last) := if s.memory.Some? then ReadLast(s, read) else (s, NotFound);
      var e := DriftObserved(if last.Found? then last.hash else "", config.hash,
                             if s.memory.Some? then "first_use" else "every_gate");
      RecordKeepsTheLogAndMemoryTogether(s1, e, config.hash, f);
      assert (s1.log + [e])[..|s1.log|] == s1.log;
    }
  }

  /** How a recording ends is read off its calls: the first to fail or die ends it,
      and what follows does not happen. Without a memory only the append is made. */
  lemma RecordingEnds(s: Store, e: Event, hash: string, f: Fates)
    ensures var r := Record(s, e, hash, f).1;
            var reached := s.memory.Some? ==> f.before.Done?;
            && (r.Recorded? <==> reached && f.append.Done? && (s.memory.Some? ==> f.after.Done?))
            && (r.NotRecorded? <==> (!reached && f.before.Fails?) || (reached && f.append.Fails?))
            && (r.LastHashNotKept? <==> s.memory.Some? && reached && f.append.Done? && f.after.Fails?)
    ensures var (s', r) := Record(s, e, hash, f);
            s'.log == if (s.memory.Some? ==> f.before.Done?) && (f.append.Done? || f.append.landed) then s.log + [e] else s.log
  {
  }

  /** The hash a reader of this memory is told: the one remembered, or for an unsure
      one what the re-read log ends with. */
  predicate IsTold(m: Memory, log: seq<Event>, rescan: bool, last: Option<string>) {
    match m
    case Known(h) => last == Some(h)
    case Unsure => last == if rescan then LastSet(log) else None
  }

  /** The whole of a gate on a backend with a memory, from what the reader is told. It
      is quiet when that is the configuration's hash. Otherwise it appends one drift
      event, from the hash it was told of, or from none, to the configuration's. */
  lemma GateRecordsTheDrift(s: Store, hash: string, rescan: bool, reseat: bool, f: Fates, last: Option<string>)
    requires s.memory.Some? && IsTold(s.memory.value, s.log, rescan, last)
    ensures var (s', g) := Observe(s, Hashed(hash), Reads(rescan, reseat), f);
            var drift := DriftObserved(if last.None? then "" else last.value, hash, "first_use");
            && (last == Some(hash) ==> g == Evaluated(hash, false) && s'.log == s.log)
            && (last != Some(hash) ==>
                  && s'.log == (if f.before.Done? && (f.append.Done? || f.append.landed) then s.log + [drift] else s.log)
                  && (g == Evaluated(hash, true) <==> f.before.Done? && f.append.Done? && f.after.Done?)
                  && (g.Evaluated? ==> g == Evaluated(hash, true)))
  {
    var s1 := ReadLast(s, Reads(rescan, reseat)).0;
    RecordingEnds(s1, DriftObserved(if last.None? then "" else last.value, hash, "first_use"), hash, f);
  }

  /** For a memory that agrees with its log, and a read that re-scans, what is told is
      what the log ends with. So the event a gate adds names as its old hash the one
      the log really carried, and an empty one only where it carried none. */
  lemma DriftNamesWhatItReplaces(s: Store, config: Loaded, read: ReadFate, f: Fates)
    requires Coherent(s) && s.memory.Some? && (read.Reads? ==> read.rescan)
    ensures var (s', g) := Observe(s, config, read, f);
            s'.log != s.log <==>
              config.Hashed? && read.Reads? && LastSet(s.log) != Some(config.hash)
              && f.before.Done? && (f.append.Done? || f.append.landed)
    ensures var (s', g) := Observe(s, config, read, f);
            s'.log != s.log ==>
              s'.log == s.log + [DriftObserved(if LastSet(s.log).None? then "" else LastSet(s.log).value, config.hash, "first_use")]
  {
    if config.Hashed? && read.Reads? {
      GateRecordsTheDrift(s, config.hash, read.rescan, read.reseat, f, LastSet(s.log));
    }
  }

  /** A gate that does not come to read or hash refuses with nothing attempted, or dies
      so, and one whose recording fails says which failure it was. */
  lemma GateRefuses(s: Store, config: Loaded, read: ReadFate, f: Fates)
    ensures var (s', g) := Observe(s, config, read, f);
            var silent := !config.Hashed? || (s.memory.Some? && !read.Reads?);
            && (silent ==> s' == s && g == if config.Hashed? && read.ReadDies? then Interrupted(false) else Refused(None))
            && (!silent ==> g != Refused(None) && g != Interrupted(false))
            && (g == Refused(Some(LastHashNotKept)) ==> s.memory.Some? && f.after.Fails? && s'.log != s.log)
            && (g == Refused(Some(NotRecorded)) ==> f.before.Fails? || f.append.Fails?)
            && (g == Interrupted(true) ==> f.before.Dies? || f.append.Dies? || f.after.Dies?)
            && g != Refused(Some(Recorded)) && g != Refused(Some(Died))
  {
  }

  /** The change is one to record: both configurations hash, and differently. */
  predicate IsChange(before: Loaded, after: Loaded) {
    after.Hashed? && !before.Unhashable? && (if before.Rejected? then "" else before.hash) != after.hash
  }

  /** What `config set` says of the log is true: that the change was recorded, or
      nothing at all about a change it did record, exactly when the log has it. */
  predicate TellsTheTruth(s: Store, s': Store, r: SetReport) {
    s'.log != s.log <==> r == Notice(true) || r == Silent(true)
  }

  /** It tells the truth unless the change is attempted and its append fails after
      the line has reached the log, and only then does it not. */
  lemma NoticeTellsTheTruth(s: Store, key: string, before: Loaded, after: Loaded, opens: bool, f: Fates)
    requires Coherent(s)
    ensures var (s', r) := RecordChange(s, key, before, after, opens, f);
            && Coherent(s')
            && (!r.SetDied? ==> (TellsTheTruth(s, s', r) <==> !(IsChange(before, after) && opens && FailsLate(s, f))))
            && (s'.log != s.log ==>
                 after.Hashed? && LastSet(s'.log) == Some(after.hash) && s'.log[..|s.log|] == s.log && |s'.log| == |s.log| + 1)
            && (r == Silent(false) && after.Hashed? ==> before == after || (before.Rejected? && after.hash == ""))
  {
    if after.Hashed? && !before.Unhashable? {
      var oldHash := if before.Rejected? then "" else before.hash;
      var e := ConfigChanged(key, oldHash, after.hash);
      RecordKeepsTheLogAndMemoryTogether(s, e, after.hash, f);
      assert (s.log + [e])[..|s.log|] == s.log;
    }
  }

  /** What is appended names the key, the hash replaced, empty where the file was
      refused, and the new one. */
  lemma ChangeIsRecordedAs(s: Store, key: string, before: Loaded, after: Loaded, opens: bool, f: Fates)
    ensures var (s', r) := RecordChange(s, key, before, after, opens, f);
            var reached := opens && IsChange(before, after) && (s.memory.Some? ==> f.before.Done?);
            s'.log == if reached && (f.append.Done? || f.append.landed)
                      then s.log + [ConfigChanged(key, if before.Hashed? then before.hash else "", after.hash)] else s.log
  {
    if IsChange(before, after) {
      RecordingEnds(s, ConfigChanged(key, if before.Hashed? then before.hash else "", after.hash), after.hash, f);
    }
  }

  /** What is reported, from the two configurations and how the calls go. */
  lemma ReportIs(s: Store, key: string, before: Loaded, after: Loaded, opens: bool, f: Fates)
    ensures var r := RecordChange(s, key, before, after, opens, f).1;
            var reached := opens && (s.memory.Some? ==> f.before.Done?);
            && (r == HashingFailed <==> after.Unhashable? || (after.Hashed? && before.Unhashable?))
            && (r == Silent(false) <==> after.Rejected? || (after.Hashed? && !before.Unhashable? && !IsChange(before, after)))
            && (r == Silent(true) <==>
                  IsChange(before, after) && reached && f.append.Done? && (s.memory.Some? ==> f.after.Done?))
            && (r == Notice(true) <==>
                  IsChange(before, after) && reached && f.append.Done? && s.memory.Some? && f.after.Fails?)
            && (r == Notice(false) <==>
                  IsChange(before, after) && (!opens || (s.memory.Some? && f.before.Fails?) || (reached && f.append.Fails?)))
  {
    if IsChange(before, after) {
      RecordingEnds(s, ConfigChanged(key, if before.Hashed? then before.hash else "", after.hash), after.hash, f);
    }
  }

  /** A change whose append fails late is in the log and said not to be. */
  lemma NoticeCanBeUntrue(s: Store, key: string, from: string, to: string)
    requires s.memory.Some? && from != to
    ensures var (s', r) := RecordChange(s, key, Hashed(from), Hashed(to), true, Fates(Done, Fails(true), Done));
            r == Notice(false) && s'.log == s.log + [ConfigChanged(key, from, to)]
  {
  }

  const ALLDONE := Fates(Done, Done, Done)

  /** The notice also says that the next gate will record the change as drift. It
      does exactly when the log did not already end with the new hash and the append
      did not fail late; otherwise the next gate is quiet. */
  lemma NoticeIsFollowedByDriftIff(s: Store, key: string, before: Loaded, after: Loaded, opens: bool, f: Fates, reseat: bool)
    requires Coherent(s) && s.memory.Some? && RecordChange(s, key, before, after, opens, f).1 == Notice(false)
    ensures var s' := RecordChange(s, key, before, after, opens, f).0;
            var (s2, g) := Observe(s', after, Reads(true, reseat), ALLDONE);
            var drifts := LastSet(s.log) != Some(after.hash) && !(opens && FailsLate(s, f));
            && g == Evaluated(after.hash, drifts)
            && (drifts <==> s2.log != s'.log)
  {
    var oldHash := if before.Rejected? then "" else before.hash;
    assert (s.log + [ConfigChanged(key, oldHash, after.hash)])[..|s.log|] == s.log;
  }

  /** The log ends with the hash; the file is edited by hand and set back while the
      before-call fails. The change is said to be unrecorded, to be recorded as drift
      by the next gate, and the next gate is quiet. */
  lemma NoticeCanPromiseInVain(key: string, edited: string, to: string, reseat: bool)
    requires edited != to
    ensures var s := Store([ConfigChanged(key, edited, to)], Some(Known(to)));
            var (s', r) := RecordChange(s, key, Hashed(edited), Hashed(to), true, Fates(Fails(false), Done, Done));
            r == Notice(false) && Observe(s', Hashed(to), Reads(true, reseat), ALLDONE) == (s, Evaluated(to, false))
  {
  }

  /** Overrides never disturb the recorded hash, however many of them land. */
  lemma {:induction false} OverridesKeepTheHash(s: Store, hash: string, os: seq<Override>, fates: seq<Fate>)
    requires |fates| == |os| && OldHashesTrue(s.log)
    ensures var s' := Overrides(s, hash, os, fates).0;
            && s'.memory == s.memory && LastSet(s'.log) == LastSet(s.log)
            && OldHashesTrue(s'.log) && Repeats(s'.log) == Repeats(s.log)
    decreases |os|
  {
    if os != [] {
      var e := ConfigOverride(os[0].flag, os[0].value, hash);
      assert (s.log + [e])[..|s.log|] == s.log;
      AppendOldHash(s.log, e);
      if fates[0].Done? {
        OverridesKeepTheHash(s.(log := s.log + [e]), hash, os[1..], fates[1..]);
      }
    }
  }

  /** The first override whose append is not done, or their number. */
  function FirstUndone(fates: seq<Fate>): (n: nat)
    ensures n <= |fates| && (n < |fates| ==> !fates[n].Done?)
    ensures forall i :: 0 <= i < n ==> fates[i].Done?
  {
    if fates == [] || !fates[0].Done? then 0 else 1 + FirstUndone(fates[1..])
  }

  /** The events of the first n overrides, each naming the hash it overrode. */
  function OverrideEvents(hash: string, os: seq<Override>, n: nat): seq<Event>
    requires n <= |os|
  {
    seq(n, i requires 0 <= i < n => ConfigOverride(os[i].flag, os[i].value, hash))
  }

  /** Every override up to the first failure is in the log, in order, with its flag and
      value, and so is that one where its line landed; all of them are exactly when the
      report says so. */
  lemma {:induction false} OverridesReachTheLog(s: Store, hash: string, os: seq<Override>, fates: seq<Fate>)
    requires |fates| == |os|
    ensures var (s', r) := Overrides(s, hash, os, fates);
            var n := FirstUndone(fates);
            && s'.log == s.log + OverrideEvents(hash, os, if n < |os| && fates[n].landed then n + 1 else n)
            && (r == Ok <==> n == |os|)
            && (n < |os| ==> (r == Error <==> fates[n].Fails?))
    decreases |os|
  {
    if os != [] {
      var e := ConfigOverride(os[0].flag, os[0].value, hash);
      var n := FirstUndone(fates);
      var k := if n < |os| && fates[n].landed then n + 1 else n;
      if fates[0].Done? {
        OverridesReachTheLog(s.(log := s.log + [e]), hash, os[1..], fates[1..]);
        assert OverrideEvents(hash, os, k) == [e] + OverrideEvents(hash, os[1..], k - 1);
      } else {
        assert OverrideEvents(hash, os, k) == if k == 0 then [] else [e];
      }
    }
  }

  /** Once a gate has been recorded, the next gate under the same configuration
      adds nothing: drift is recorded once, not at every gate. */
  lemma SecondGateIsQuiet(s: Store, config: Loaded, read: ReadFate, f: Fates, rescan: bool, reseat: bool, f': Fates)
    requires Coherent(s) && s.memory.Some? && config.Hashed?
    requires Observe(s, config, read, f).1 == Evaluated(config.hash, true)
    ensures var s' := Observe(s, config, read, f).0;
            Observe(s', config, Reads(rescan, reseat), f') == (s', Evaluated(config.hash, false))
  {
    EvaluatedGateIsLogged(s, config, read, f);
  }

  /** A backend without a memory records the hash at every gate it evaluates,
      with no guess at the previous one. */
  lemma WithoutMemoryEveryGateRecords(s: Store, config: Loaded, read: ReadFate, f: Fates)
    requires s.memory.None?
    ensures var (s', g) := Observe(s, config, read, f);
            g.Evaluated? <==> config.Hashed? && f.append.Done?
    ensures var (s', g) := Observe(s, config, read, f);
            g.Evaluated? ==> s'.log == s.log + [DriftObserved("", config.hash, "every_gate")]
  {
  }

  // ---- whole runs ----

  /** The store and the configuration file beside it. */
  datatype World = World(store: Store, config: Loaded)

  /** What may happen next: a gate, its overrides, a `config set`, an edit of
      the file by hand, or an append by a command that sets no hash. */
  datatype Action =
    | EvaluateGate(read: ReadFate, fates: Fates)
    | RecordOverrides(hash: string, overrides: seq<Override>, overrideFates: seq<Fate>)
    | SetConfig(key: string, written: Loaded, opens: bool, setFates: Fates)
    | EditConfig(edited: Loaded)
    | AppendOther(fate: Fate)

  predicate WellFormed(a: Action) {
    a.RecordOverrides? ==> |a.overrideFates| == |a.overrides|
  }

  function Step(w: World, a: Action): World
    requires WellFormed(a)
  {
    match a
    case EvaluateGate(read, f) => w.(store := Observe(w.store, w.config, read, f).0)
    case RecordOverrides(h, os, fs) => w.(store := Overrides(w.store, h, os, fs).0)
    case SetConfig(key, written, opens, f) =>
      World(RecordChange(w.store, key, w.config, written, opens, f).0, written)
    case EditConfig(c) => w.(config := c)
    case AppendOther(fate) => w.(store := Append(w.store, OtherEvent, fate))
  }

  predicate AllWellFormed(acts: seq<Action>) {
    forall a :: a in acts ==> WellFormed(a)
  }

  function Run(w: World, acts: seq<Action>): World
    requires AllWellFormed(acts)
  {
    if acts == [] then w else Step(Run(w, acts[..|acts| - 1]), acts[|acts| - 1])
  }

  /** 1 when the action attempted a recording that failed or was interrupted. */
  function FailedRecording(w: World, a: Action): nat
    requires WellFormed(a)
  {
    match a
    case EvaluateGate(read, f) =>
      var g := Observe(w.store, w.config, read, f).1;
      if (g.Refused? && g.attempt.Some?) || (g.Interrupted? && g.attempted) then 1 else 0
    case SetConfig(key, written, opens, f) =>
      var r := RecordChange(w.store, key, w.config, written, opens, f).1;
      if r.Notice? || r.SetDied? then 1 else 0
    case _ => 0
  }

  function FailedRecordings(w: World, acts: seq<Action>): nat
    requires AllWellFormed(acts)
  {
    if acts == [] then 0
    else
      var n := |acts| - 1;
      FailedRecordings(w, acts[..n]) + FailedRecording(Run(w, acts[..n]), acts[n])
  }

  /** How many drift events recorded the very hash the log already ended with. */
  function Repeats(log: seq<Event>): nat {
    if log == [] then 0
    else
      var n := |log| - 1;
      Repeats(log[..n]) + (if log[n].DriftObserved? && LastSet(log[..n]) == Some(log[n].newHash) then 1 else 0)
  }

  /** What a run has in hand towards one more repeat. */
  function Credit(s: Store): nat {
    if s.memory == Some(Unsure) && LastSet(s.log).Some? then 1 else 0
  }

  /** What every run keeps, on a backend with a memory or without. */
  predicate Kept(w: World) {
    Coherent(w.store) && OldHashesTrue(w.store.log)
  }

  predicate Sound(w: World) {
    w.store.memory.Some? && Kept(w)
  }

  lemma RecordStep(s: Store, e: Event, hash: string, f: Fates)
    requires s.memory.Some? && Coherent(s) && OldHashesTrue(s.log) && SetsHash(e) && e.newHash == hash
    requires e.DriftObserved? && e.oldHash != "" ==> LastSet(s.log) == Some(e.oldHash)
    requires e.DriftObserved? && s.memory.value.Known? ==> LastSet(s.log) != Some(hash)
    ensures var (s', r) := Record(s, e, hash, f);
            && s'.memory.Some? && Coherent(s') && OldHashesTrue(s'.log)
            && Repeats(s'.log) + Credit(s') <= Repeats(s.log) + Credit(s) + (if r.Recorded? then 0 else 1)
  {
    RecordKeepsTheLogAndMemoryTogether(s, e, hash, f);
    AppendOldHash(s.log, e);
    assert (s.log + [e])[..|s.log|] == s.log;
  }

  lemma GateStep(w: World, read: ReadFate, f: Fates)
    requires Sound(w)
    ensures var w' := Step(w, EvaluateGate(read, f));
            && Sound(w')
            && Repeats(w'.store.log) + Credit(w'.store)
               <= Repeats(w.store.log) + Credit(w.store) + FailedRecording(w, EvaluateGate(read, f))
  {
    if w.config.Hashed? {
      var (s1, last) := ReadLast(w.store, read);
      var h := w.config.hash;
      match last {
        case NotFound => RecordStep(s1, DriftObserved("", h, "first_use"), h, f);
        case Found(l) =>
          if l != h {
            RecordStep(s1, DriftObserved(l, h, "first_use"), h, f);
          }
        case _ =>
      }
    }
  }

  lemma SetStep(w: World, key: string, written: Loaded, opens: bool, f: Fates)
    requires Sound(w)
    ensures var w' := Step(w, SetConfig(key, written, opens, f));
            && Sound(w')
            && Repeats(w'.store.log) + Credit(w'.store)
               <= Repeats(w.store.log) + Credit(w.store) + FailedRecording(w, SetConfig(key, written, opens, f))
  {
    if written.Hashed? && !w.config.Unhashable? {
      var oldHash := if w.config.Rejected? then "" else w.config.hash;
      RecordStep(w.store, ConfigChanged(key, oldHash, written.hash), written.hash, f);
    }
  }

  lemma OneStep(w: World, a: Action)
    requires Sound(w) && WellFormed(a)
    ensures var w' := Step(w, a);
            && Sound(w')
            && Repeats(w'.store.log) + Credit(w'.store)
               <= Repeats(w.store.log) + Credit(w.store) + FailedRecording(w, a)
  {
    match a {
      case EvaluateGate(read, f) => GateStep(w, read, f);
      case RecordOverrides(h, os, fs) => OverridesKeepTheHash(w.store, h, os, fs);
      case SetConfig(key, written, opens, f) => SetStep(w, key, written, opens, f);
      case EditConfig(_) =>
      case AppendOther(_) =>
        AppendOldHash(w.store.log, OtherEvent);
        assert (w.store.log + [OtherEvent])[..|w.store.log|] == w.store.log;
    }
  }

  /** Crash safety and the amortised bound, over every run: the memory is never
      wrong, no drift event misstates the hash it replaced, and the log repeats
      itself no more often than a recording failed or was interrupted. */
  lemma {:induction false} EveryRun(w: World, acts: seq<Action>)
    requires Sound(w) && AllWellFormed(acts)
    ensures var w' := Run(w, acts);
            && Sound(w')
            && Repeats(w'.store.log) + Credit(w'.store)
               <= Repeats(w.store.log) + Credit(w.store) + FailedRecordings(w, acts)
    decreases |acts|
  {
    if acts != [] {
      var n := |acts| - 1;
      EveryRun(w, acts[..n]);
      OneStep(Run(w, acts[..n]), acts[n]);
    }
  }

  const EMPTY := Store([], Some(Unsure))

  /** From an empty store whose backend keeps a memory. */
  lemma {:induction false} RepeatedDriftIsPaidFor(config: Loaded, acts: seq<Action>)
    requires AllWellFormed(acts)
    ensures Repeats(Run(World(EMPTY, config), acts).store.log) <= FailedRecordings(World(EMPTY, config), acts)
  {
    EveryRun(World(EMPTY, config), acts);
  }

  lemma RecordKeeps(s: Store, e: Event, hash: string, f: Fates)
    requires Coherent(s) && OldHashesTrue(s.log) && SetsHash(e) && e.newHash == hash
    requires e.DriftObserved? && e.oldHash != "" ==> LastSet(s.log) == Some(e.oldHash)
    ensures Coherent(Record(s, e, hash, f).0) && OldHashesTrue(Record(s, e, hash, f).0.log)
  {
    RecordKeepsTheLogAndMemoryTogether(s, e, hash, f);
    AppendOldHash(s.log, e);
  }

  lemma StepKeeps(w: World, a: Action)
    requires Kept(w) && WellFormed(a)
    ensures Kept(Step(w, a))
  {
    if w.store.memory.Some? {
      OneStep(w, a);
    } else {
      match a {
        case EvaluateGate(read, f) =>
          if w.config.Hashed? {
            RecordKeeps(w.store, DriftObserved("", w.config.hash, "every_gate"), w.config.hash, f);
          }
        case RecordOverrides(h, os, fs) => OverridesKeepTheHash(w.store, h, os, fs);
        case SetConfig(key, written, opens, f) =>
          if written.Hashed? && !w.config.Unhashable? {
            var oldHash := if w.config.Rejected? then "" else w.config.hash;
            RecordKeeps(w.store, ConfigChanged(key, oldHash, written.hash), written.hash, f);
          }
        case EditConfig(_) =>
        case AppendOther(_) => AppendOldHash(w.store.log, OtherEvent);
      }
    }
  }

  /** Crash safety over every run, on every backend: a memory, where there is one,
      is never wrong, and no drift event misstates the hash it replaced. */
  lemma {:induction false} EveryRunKeeps(w: World, acts: seq<Action>)
    requires Kept(w) && AllWellFormed(acts)
    ensures Kept(Run(w, acts))
  {
    if acts != [] {
      var n := |acts| - 1;
      EveryRunKeeps(w, acts[..n]);
      StepKeeps(Run(w, acts[..n]), acts[n]);
    }
  }

  /** At every point of every run, on every backend: a gate that is evaluated then
      is evaluated under the configuration then in force, and the log's last
      hash-setting event carries its hash. */
  lemma {:induction false} EveryGateOfEveryRunIsLogged(w: World, acts: seq<Action>, i: nat)
    requires Kept(w) && AllWellFormed(acts) && i < |acts| && acts[i].EvaluateGate?
    ensures var at := Run(w, acts[..i]);
            var g := Observe(at.store, at.config, acts[i].read, acts[i].fates).1;
            g.Evaluated? ==>
              at.config == Hashed(g.hash) && LastSet(Run(w, acts[..i + 1]).store.log) == Some(g.hash)
  {
    var at := Run(w, acts[..i]);
    EveryRunKeeps(w, acts[..i]);
    EvaluatedGateIsLogged(at.store, at.config, acts[i].read, acts[i].fates);
    assert acts[..i + 1][..i] == acts[..i];
  }

  /** The forgetful run: n gates whose after-call fails, on a backend that
      answers "nothing recorded" while unsure. */
  function Forgetful(n: nat): seq<Action> {
    seq(n, _ => EvaluateGate(Reads(false, false), Fates(Done, Done, Fails(false))))
  }

  lemma {:induction false} ForgetfulRun(h: string, n: nat)
    ensures AllWellFormed(Forgetful(n))
    ensures var w := World(EMPTY, Hashed(h));
            var w' := Run(w, Forgetful(n));
            && w'.config == w.config && w'.store.memory == Some(Unsure)
            && FailedRecordings(w, Forgetful(n)) == n
            && Repeats(w'.store.log) == (if n == 0 then 0 else n - 1)
            && LastSet(w'.store.log) == (if n == 0 then None else Some(h))
  {
    if n > 0 {
      ForgetfulRun(h, n - 1);
      assert Forgetful(n)[..n - 1] == Forgetful(n - 1);
      var log := Run(World(EMPTY, Hashed(h)), Forgetful(n - 1)).store.log;
      var e := DriftObserved("", h, "first_use");
      assert (log + [e])[..|log|] == log;
    }
  }

  /** The bound is met: n interrupted recordings can cost n repeats. */
  lemma RepeatBoundIsTight(h: string, n: nat)
    ensures exists acts ::
              && AllWellFormed(acts)
              && FailedRecordings(World(EMPTY, Hashed(h)), acts) == n
              && Repeats(Run(World(EMPTY, Hashed(h)), acts).store.log) == n
  {
    var w := World(EMPTY, Hashed(h));
    var last := EvaluateGate(Reads(false, false), Fates(Done, Done, Done));
    var acts := Forgetful(n) + [last];
    ForgetfulRun(h, n);
    assert acts[..n] == Forgetful(n);
    var log := Run(w, Forgetful(n)).store.log;
    assert (log + [DriftObserved("", h, "first_use")])[..|log|] == log;
    assert FailedRecordings(w, acts) == n;
  }
}
