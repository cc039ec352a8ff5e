/** The file-backed last-hash memory: a marker file caching which hash the
    audit log last recorded, and the backwards, chunk-at-a-time read of the log
    it falls back on. They keep the ledger's contract while what is written reads
    back as its event or as nothing, and the marker and the log agree until a step
    spoils them, as one behind a line left broken off can. */
module LedgerScan {
  import opened Wrappers
  import opened ConfigHash

  newtype byte = b: int | 0 <= b < 256

  const NEWLINE: byte := 10

  // ---- what the log says: its lines, front to back ----

  predicate NoNewline(s: seq<byte>) {
    forall j :: 0 <= j < |s| ==> s[j] != NEWLINE
  }

  /** The newline-separated lines of s; text after the last newline, possibly
      empty, is the last line. */
  function Lines(s: seq<byte>): (lines: seq<seq<byte>>)
    ensures lines != []
  {
    if s == [] then [[]]
    else
      var lines := Lines(s[1..]);
      if s[0] == NEWLINE then [[]] + lines else [[s[0]] + lines[0]] + lines[1..]
  }

  type Parser = seq<byte> -> Option<string>

  /** The hash of the last line that parses as a hash-setting event. */
  function LastParsed(lines: seq<seq<byte>>, parse: Parser): Option<string> {
    if lines == [] then None
    else
      var n := |lines| - 1;
      if parse(lines[n]).Some? then parse(lines[n]) else LastParsed(lines[..n], parse)
  }

  function LastHash(file: seq<byte>, parse: Parser): Option<string> {
    LastParsed(Lines(file), parse)
  }

  // ---- facts about lines ----

  lemma {:induction false} LinesCut(s: seq<byte>, k: nat)
    requires k < |s| && s[k] == NEWLINE
    ensures Lines(s) == Lines(s[..k]) + Lines(s[k + 1..])
  {
    var front, back, rest := s[..k], s[k + 1..], s[1..];
    if k == 0 {
      assert front == [];
    } else {
      assert front[1..] == rest[..k - 1] && back == rest[k..];
      LinesCut(rest, k - 1);
    }
  }

  lemma {:induction false} LastParsedConcat(xs: seq<seq<byte>>, ys: seq<seq<byte>>, parse: Parser)
    ensures LastParsed(xs + ys, parse)
         == if LastParsed(ys, parse).Some? then LastParsed(ys, parse) else LastParsed(xs, parse)
    decreases |ys|
  {
    if ys == [] {
      assert xs + ys == xs;
    } else {
      var n := |ys| - 1;
      assert (xs + ys)[..|xs| + n] == xs + ys[..n];
      LastParsedConcat(xs, ys[..n], parse);
    }
  }

  lemma {:induction false} LinesOfOne(s: seq<byte>)
    requires NoNewline(s)
    ensures Lines(s) == [s]
  {
    if s != [] {
      LinesOfOne(s[1..]);
      assert [s[0]] + s[1..] == s;
    }
  }

  lemma OneLine(s: seq<byte>, parse: Parser)
    requires NoNewline(s)
    ensures LastHash(s, parse) == parse(s)
  {
    LinesOfOne(s);
    assert LastParsed([s][..0], parse) == None;
  }

  /** The last line of a file decides unless it does not parse, and then the
      file without it does. */
  lemma CutLastLine(s: seq<byte>, k: nat, parse: Parser)
    requires k < |s| && s[k] == NEWLINE && NoNewline(s[k + 1..])
    ensures LastHash(s, parse)
         == if parse(s[k + 1..]).Some? then parse(s[k + 1..]) else LastHash(s[..k], parse)
  {
    LinesCut(s, k);
    LastParsedConcat(Lines(s[..k]), Lines(s[k + 1..]), parse);
    OneLine(s[k + 1..], parse);
  }

  // ---- the backwards read ----

  /** Index of the last newline in s, -1 when it holds none. */
  function LastNewline(s: seq<byte>): (i: int)
    ensures -1 <= i < |s|
    ensures i >= 0 ==> s[i] == NEWLINE
    ensures forall j :: i < j < |s| ==> s[j] != NEWLINE
  {
    if s == [] then -1
    else if s[|s| - 1] == NEWLINE then |s| - 1
    else LastNewline(s[..|s| - 1])
  }

  lemma NothingAfter(s: seq<byte>, i: int)
    requires i == LastNewline(s)
    ensures NoNewline(s[i + 1..]) && (i < 0 ==> NoNewline(s))
  {
  }

  /** One line off the back of a file whose tail is held in rest. */
  lemma CutHeldLine(head: seq<byte>, rest: seq<byte>, i: nat, parse: Parser)
    requires i < |rest| && rest[i] == NEWLINE && NoNewline(rest[i + 1..])
    ensures LastHash(head + rest, parse)
         == if parse(rest[i + 1..]).Some? then parse(rest[i + 1..]) else LastHash(head + rest[..i], parse)
  {
    var s, k := head + rest, |head| + i;
    assert s[k + 1..] == rest[i + 1..];
    assert s[..k] == head + rest[..i];
    CutLastLine(s, k, parse);
  }

  /** Reads the log backwards, chunkSize bytes at a time, carrying back in tail
      a line the chunk boundary cut; answers exactly what reading every line
      from the front would, whatever the chunk size. */
  method LastConfigHashInLog(file: seq<byte>, chunkSize: nat, parse: Parser) returns (r: Option<string>)
    requires chunkSize > 0
    requires parse([]).None?
    ensures r == LastHash(file, parse)
  {
    var end := |file|;
    var tail: seq<byte> := [];
    assert file[..end] + tail == file;
    while end > 0
      invariant 0 <= end <= |file|
      invariant end == 0 ==> file == []
      invariant LastHash(file[..end] + tail, parse) == LastHash(file, parse)
    {
      var start := if end > chunkSize then end - chunkSize else 0;
      ghost var head := file[..start];
      var rest := file[start..end] + tail;
      assert head + rest == file[..end] + tail;
      var i := LastNewline(rest);
      while i >= 0
        invariant i == LastNewline(rest)
        invariant LastHash(head + rest, parse) == LastHash(file, parse)
        decreases |rest|
      {
        NothingAfter(rest, i);
        CutHeldLine(head, rest, i, parse);
        var hash := parse(rest[i + 1..]);
        if hash.Some? {
          return hash;
        }
        rest := rest[..i];
        i := LastNewline(rest);
      }
      NothingAfter(rest, -1);
      if start == 0 {
        assert head + rest == rest;
        OneLine(rest, parse);
        return parse(rest);
      }
      tail := rest;
      end := start;
    }
    OneLine(file, parse);
    r := None;
  }

  // ---- appending a line ----

  /** What follows the last newline: empty unless a write was torn. */
  function Fragment(file: seq<byte>): seq<byte> {
    file[LastNewline(file) + 1..]
  }

  predicate WholeLines(file: seq<byte>) {
    file == [] || file[|file| - 1] == NEWLINE
  }

  /** The file up to, and without, the newline its fragment follows. */
  function Settled(file: seq<byte>, parse: Parser): Option<string> {
    var i := LastNewline(file);
    if i < 0 then None else LastHash(file[..i], parse)
  }

  lemma GluedLine(file: seq<byte>, line: seq<byte>, parse: Parser)
    requires NoNewline(line)
    ensures var glued := parse(Fragment(file) + line);
            LastHash(file + line, parse) == if glued.Some? then glued else Settled(file, parse)
  {
    var s, i := file + line, LastNewline(file);
    assert s[i + 1..] == Fragment(file) + line;
    if i < 0 {
      assert s[0..] == s;
      OneLine(s, parse);
    } else {
      assert s[..i] == file[..i];
      CutLastLine(s, i, parse);
    }
  }

  lemma TrailingNewline(s: seq<byte>, parse: Parser)
    requires parse([]).None?
    ensures LastHash(s + [NEWLINE], parse) == LastHash(s, parse)
  {
    var t := s + [NEWLINE];
    assert t[|s| + 1..] == [] && t[..|s|] == s;
    CutLastLine(t, |s|, parse);
  }

  /** An appended line is glued to whatever fragment a torn write left: it is
      read back as itself exactly when the two together parse to its hash. On a
      log of whole lines the fragment is empty and the line speaks for itself. */
  lemma AppendedLineIsReadBack(file: seq<byte>, line: seq<byte>, parse: Parser)
    requires NoNewline(line) && parse([]).None?
    ensures var glued := parse(Fragment(file) + line);
            LastHash(file + line + [NEWLINE], parse) == if glued.Some? then glued else Settled(file, parse)
  {
    GluedLine(file, line, parse);
    TrailingNewline(file + line, parse);
  }

  lemma WholeLinesSettle(file: seq<byte>, parse: Parser)
    requires WholeLines(file) && parse([]).None?
    ensures Fragment(file) == [] && Settled(file, parse) == LastHash(file, parse)
  {
    if file == [] {
      OneLine([], parse);
    } else {
      var head := file[..|file| - 1];
      assert file == head + [NEWLINE] && LastNewline(file) == |file| - 1;
      TrailingNewline(head, parse);
    }
  }

  // ---- the marker beside the log ----

  datatype Marker = Marker(hash: string, ledgerSize: nat)

  /** The log, when there is one, and the marker file caching what it records. */
  datatype Files = Files(log: Option<seq<byte>>, marker: Option<Marker>)

  function Content(f: Files): seq<byte> {
    if f.log.Some? then f.log.value else []
  }

  /** The hash the log records, read in full. */
  function InLog(f: Files, parse: Parser): Option<string> {
    if f.log.None? then None else LastHash(f.log.value, parse)
  }

  /** Whether the marker speaks for the log at all. */
  predicate Speaks(f: Files) {
    f.marker.Some? && f.marker.value.hash != "" && f.log.Some? && f.marker.value.ledgerSize <= |f.log.value|
  }

  /** A line's hash, when it sets one, is not empty, and an empty line sets none. */
  ghost predicate ReadsLines(parse: Parser) {
    parse([]).None? && forall l :: parse(l) != Some("")
  }

  lemma {:induction false} RecordedIsNotEmpty(lines: seq<seq<byte>>, parse: Parser)
    requires ReadsLines(parse)
    ensures LastParsed(lines, parse) != Some("")
  {
    if lines != [] && parse(lines[|lines| - 1]).None? {
      RecordedIsNotEmpty(lines[..|lines| - 1], parse);
    }
  }

  /** A marker that speaks for the log says what the log says. */
  predicate Agrees(f: Files, parse: Parser) {
    Speaks(f) ==> InLog(f, parse) == Some(f.marker.value.hash)
  }

  /** The marker describes the log as it is or as it was before it grew: true as
      long as the log is only ever appended to. */
  predicate InStep(f: Files) {
    f.marker.Some? ==> f.log.Some? && f.marker.value.ledgerSize <= |f.log.value|
  }

  function WithMarker(f: Files, hash: string, written: bool): Files {
    if written && f.log.Some? then f.(marker := Some(Marker(hash, |f.log.value|))) else f
  }

  /** A marker that speaks is answered at once; otherwise the log is read and
      the marker re-seated, if it can be written. */
  function ReadFiles(f: Files, parse: Parser, writable: bool): (Files, Option<string>) {
    if Speaks(f) then (f, Some(f.marker.value.hash))
    else
      var r := InLog(f, parse);
      (if r.Some? then WithMarker(f, r.value, writable) else f, r)
  }

  // ---- a line written, whole or in part ----

  /** How a line's write ends, and how much of it had reached the log by then. */
  datatype Appended = Appended(status: Status, bytes: nat)

  /** A line is written with its newline; a write that succeeds is whole. */
  function Reached(line: seq<byte>, how: Appended): (n: nat)
    ensures n <= |line| + 1
  {
    if how.status == Ok || how.bytes > |line| then |line| + 1 else how.bytes
  }

  function Grown(f: Files, line: seq<byte>, n: nat): Files
    requires n <= |line| + 1
  {
    if n == 0 then f else f.(log := Some(Content(f) + (line + [NEWLINE])[..n]))
  }

  /** What a read of the log finds once part has been written behind file: the
      fragment there and the part are one line. */
  function Glued(file: seq<byte>, part: seq<byte>, parse: Parser): Option<string> {
    var glued := parse(Fragment(file) + part);
    if glued.Some? then glued else Settled(file, parse)
  }

  /** The part of a line that n bytes of it and its newline hold. */
  function Part(line: seq<byte>, n: nat): seq<byte> {
    if n > |line| then line else line[..n]
  }

  lemma GrownBy(f: Files, line: seq<byte>, n: nat)
    requires 0 < n <= |line| + 1
    ensures Grown(f, line, n).log == Some(Content(f) + Part(line, n) + if n > |line| then [NEWLINE] else [])
  {
    if n > |line| {
      assert (line + [NEWLINE])[..n] == line + [NEWLINE];
      assert Content(f) + (line + [NEWLINE]) == Content(f) + line + [NEWLINE];
    } else {
      assert (line + [NEWLINE])[..n] == line[..n];
      assert Content(f) + line[..n] == Content(f) + line[..n] + [];
    }
  }

  lemma GrownReads(f: Files, line: seq<byte>, n: nat, parse: Parser)
    requires NoNewline(line) && parse([]).None? && 0 < n <= |line| + 1
    ensures InLog(Grown(f, line, n), parse) == Glued(Content(f), Part(line, n), parse)
  {
    GrownBy(f, line, n);
    if n > |line| {
      AppendedLineIsReadBack(Content(f), line, parse);
    } else {
      var part := line[..n];
      assert Content(f) + part + [] == Content(f) + part;
      GluedLine(Content(f), part, parse);
    }
  }

  predicate NamesAHash(e: Event) {
    SetsHash(e) ==> e.newHash != ""
  }

  /** The line an event is written as: it parses to the event's hash, when it sets
      one, and no shorter part of it parses. */
  ghost predicate IsLineOf(line: seq<byte>, e: Event, parse: Parser) {
    && line != [] && NoNewline(line)
    && parse(line) == (if SetsHash(e) then Some(e.newHash) else None)
    && forall n :: 0 <= n < |line| ==> parse(line[..n]).None?
  }

  /** Whether the whole line is there, with its newline or without. */
  predicate Landed(line: seq<byte>, how: Appended) {
    Reached(line, how) >= |line|
  }

  /** Whether the line was left broken off: some of it there, its newline not. */
  predicate Torn(line: seq<byte>, how: Appended) {
    0 < Reached(line, how) <= |line|
  }

  lemma WholePartReads(f: Files, parse: Parser, line: seq<byte>, n: nat)
    requires parse([]).None? && NoNewline(line) && WholeLines(Content(f)) && 0 < n <= |line| + 1
    ensures var part := parse(Part(line, n));
            InLog(Grown(f, line, n), parse) == if part.Some? then part else InLog(f, parse)
  {
    WholeLinesSettle(Content(f), parse);
    GrownReads(f, line, n, parse);
    assert [] + Part(line, n) == Part(line, n);
    OneLine([], parse);
  }

  lemma GrownEnds(f: Files, line: seq<byte>, n: nat)
    requires NoNewline(line) && WholeLines(Content(f)) && n <= |line| + 1
    ensures WholeLines(Content(Grown(f, line, n))) <==> n == 0 || n > |line|
  {
    if n > 0 {
      var c := Content(Grown(f, line, n));
      assert c[|c| - 1] == (line + [NEWLINE])[n - 1];
    }
  }

  /** On a log of whole lines a write reads as all or nothing of its event. */
  lemma WholeLogReads(f: Files, parse: Parser, e: Event, line: seq<byte>, how: Appended)
    requires ReadsLines(parse) && IsLineOf(line, e, parse) && WholeLines(Content(f))
    ensures var g := Grown(f, line, Reached(line, how));
            && InLog(g, parse) == (if SetsHash(e) && Landed(line, how) then Some(e.newHash) else InLog(f, parse))
            && (WholeLines(Content(g)) <==> !Torn(line, how))
  {
    var n := Reached(line, how);
    GrownEnds(f, line, n);
    if n > 0 {
      WholePartReads(f, parse, line, n);
      assert n >= |line| ==> Part(line, n) == line;
    }
  }

  /** The marker file caches; the log is the evidence. */
  class ConfigHashMarker {
    const parse: Parser
    const chunkSize: nat
    var log: Option<seq<byte>>
    var marker: Option<Marker>

    constructor (parse: Parser, chunkSize: nat)
      requires parse([]).None? && chunkSize > 0
      ensures Valid() && Now() == Files(None, None) && this.parse == parse
    {
      this.parse, this.chunkSize := parse, chunkSize;
      log, marker := None, None;
    }

    function Now(): Files
      reads this
    {
      Files(log, marker)
    }

    predicate Valid()
      reads this
    {
      chunkSize > 0 && parse([]).None?
    }

    /** Answers what the log records where the marker agrees with it, and leaves a
        marker that still does. */
    method LastConfigHash(markerWritable: bool) returns (r: Option<string>)
      requires Valid()
      modifies this`marker
      ensures Valid() && (Now(), r) == ReadFiles(old(Now()), parse, markerWritable)
      ensures old(Agrees(Now(), parse)) ==> r == InLog(Now(), parse) && Agrees(Now(), parse)
    {
      if log.None? {
        return None;
      }
      if marker.Some? && marker.value.hash != "" && marker.value.ledgerSize <= |log.value| {
        return Some(marker.value.hash);
      }
      r := LastConfigHashInLog(log.value, chunkSize, parse);
      if r.Some? {
        var _ := WriteMarker(r.value, markerWritable);
      }
    }

    method WriteMarker(hash: string, writable: bool) returns (ok: bool)
      modifies this`marker
      ensures ok <==> writable && log.Some?
      ensures Now() == WithMarker(old(Now()), hash, writable)
    {
      if log.None? || !writable {
        return false;
      }
      marker := Some(Marker(hash, |log.value|));
      ok := true;
    }

    method BeforeConfigHashAppend(fate: Fate) returns (r: Status)
      modifies this`marker
      ensures r == StatusOf(fate)
      ensures marker == if TakesEffect(fate) then None else old(marker)
    {
      if TakesEffect(fate) {
        marker := None;
      }
      r := StatusOf(fate);
    }

    /** One line written behind whatever the log ends with, in whole or in part. */
    method AppendLine(line: seq<byte>, how: Appended) returns (r: Status)
      modifies this`log
      ensures Now() == Grown(old(Now()), line, Reached(line, how)) && r == how.status
    {
      var n := Reached(line, how);
      if n > 0 {
        log := Some((if log.Some? then log.value else []) + (line + [NEWLINE])[..n]);
      }
      r := how.status;
    }

    /** Remembers the hash beside whatever the log then holds; without a log it
        fails. */
    method AfterConfigHashAppend(hash: string, fate: Fate) returns (r: Status)
      modifies this`marker
      ensures r == if log.None? && fate.Done? then Error else StatusOf(fate)
      ensures Now() == WithMarker(old(Now()), hash, TakesEffect(fate))
    {
      var ok := WriteMarker(hash, TakesEffect(fate));
      r := if !ok && fate.Done? then Error else StatusOf(fate);
    }

    /** The recording of one hash, on the files. */
    method RecordConfigHash(line: seq<byte>, hash: string, fates: FileFates) returns (r: Recording)
      modifies this
      ensures (Now(), r) == RecordInFiles(old(Now()), line, hash, fates)
    {
      var b := BeforeConfigHashAppend(fates.before);
      if b != Ok {
        return if b == Error then NotRecorded else Died;
      }
      var a := AppendLine(line, fates.append);
      if a != Ok {
        return if a == Error then NotRecorded else Died;
      }
      var k := AfterConfigHashAppend(hash, fates.after);
      match k {
        case Ok => r := Recorded;
        case Error => r := LastHashNotKept;
        case Dead => r := Died;
      }
    }
  }

  /** How the three calls of one recording go, on the files. */
  datatype FileFates = FileFates(before: Fate, append: Appended, after: Fate)

  function Ending(status: Status): Recording {
    match status case Ok => Recorded case Error => NotRecorded case Dead => Died
  }

  function RecordInFiles(f: Files, line: seq<byte>, hash: string, fates: FileFates): (Files, Recording) {
    var f1 := if TakesEffect(fates.before) then f.(marker := None) else f;
    if !fates.before.Done? then (f1, Ending(StatusOf(fates.before)))
    else
      var f2 := Grown(f1, line, Reached(line, fates.append));
      if fates.append.status != Ok then (f2, Ending(fates.append.status))
      else
        (WithMarker(f2, hash, TakesEffect(fates.after)),
         match fates.after case Done => Recorded case Fails(_) => LastHashNotKept case Dies(_) => Died)
  }

  /** How an event is written as a line. */
  type Writer = Event -> seq<byte>

  ghost predicate Writes(write: Writer, parse: Parser) {
    forall e :: NamesAHash(e) ==> IsLineOf(write(e), e, parse)
  }

  function DriftFrom(last: Option<string>, hash: string): Event {
    DriftObserved(if last.Some? then last.value else "", hash, "first_use")
  }

  function GateOf(hash: string, r: Recording): Gate {
    match r
    case Recorded => Evaluated(hash, true)
    case Died => Interrupted(true)
    case _ => Refused(Some(r))
  }

  /** A gate's observation of the configuration, on the files. */
  function ObserveInFiles(f: Files, parse: Parser, write: Writer, config: Loaded, read: ReadFate, fates: FileFates): (Files, Gate) {
    if !config.Hashed? then (f, Refused(None))
    else
      match read
      case ReadFails => (f, Refused(None))
      case ReadDies => (f, Interrupted(false))
      case Reads(_, writable) =>
        var (f1, last) := ReadFiles(f, parse, writable);
        if last == Some(config.hash) then (f1, Evaluated(config.hash, false))
        else
          var (f2, r) := RecordInFiles(f1, write(DriftFrom(last, config.hash)), config.hash, fates);
          (f2, GateOf(config.hash, r))
  }

  function SetInFiles(f: Files, write: Writer, key: string, before: Loaded, after: Loaded, opens: bool, fates: FileFates): (Files, SetReport) {
    match after
    case Rejected => (f, Silent(false))
    case Unhashable => (f, HashingFailed)
    case Hashed(newHash) =>
      if before.Unhashable? then (f, HashingFailed)
      else
        var oldHash := if before.Rejected? then "" else before.hash;
        if oldHash == newHash then (f, Silent(false))
        else if !opens then (f, Notice(false))
        else
          var (f', r) := RecordInFiles(f, write(ConfigChanged(key, oldHash, newHash)), newHash, fates);
          (f', match r
               case Recorded => Silent(true)
               case NotRecorded => Notice(false)
               case LastHashNotKept => Notice(true)
               case Died => SetDied)
  }

  /** What a write that ends so leaves behind the log: all of the line and its newline
      where it succeeded, and otherwise as many bytes of them as had got there. */
  predicate IsWritten(before: seq<byte>, line: seq<byte>, how: Appended, after: seq<byte>) {
    if how.status == Ok || how.bytes > |line| then after == before + line + [NEWLINE]
    else after == before + line[..how.bytes]
  }

  lemma GrownIsWritten(f: Files, line: seq<byte>, how: Appended)
    ensures IsWritten(Content(f), line, how, Content(Grown(f, line, Reached(line, how))))
  {
    var n := Reached(line, how);
    if n > 0 {
      GrownBy(f, line, n);
    }
    assert Content(f) + line[..0] == Content(f);
    assert n <= |line| ==> Content(f) + line[..n] + [] == Content(f) + line[..n];
  }

  /** A gate writes to the log, where it comes to write, the line of one drift event:
      from the hash a marker that agrees or the log itself holds, empty where there is
      none, to the configuration's. */
  lemma GateWrites(f: Files, parse: Parser, write: Writer, hash: string, read: ReadFate, fates: FileFates)
    requires Agrees(f, parse) && read.Reads?
    ensures var (f', g) := ObserveInFiles(f, parse, write, Hashed(hash), read, fates);
            var last := InLog(f, parse);
            if last == Some(hash) then g == Evaluated(hash, false) && f'.log == f.log
            else if !fates.before.Done? then f'.log == f.log
            else IsWritten(Content(f), write(DriftObserved(if last.Some? then last.value else "", hash, "first_use")),
                           fates.append, Content(f'))
  {
    var last := InLog(f, parse);
    var line := write(DriftObserved(if last.Some? then last.value else "", hash, "first_use"));
    var f1 := ReadFiles(f, parse, read.reseat).0;
    if last != Some(hash) && fates.before.Done? {
      GrownIsWritten(f1.(marker := None), line, fates.append);
    }
  }

  /** A `config set` writes the line of one change, and nothing where there is none to
      record. */
  lemma SetWrites(f: Files, write: Writer, key: string, before: Loaded, after: Loaded, opens: bool, fates: FileFates)
    ensures var f' := SetInFiles(f, write, key, before, after, opens, fates).0;
            if IsChange(before, after) && opens && fates.before.Done? then
              IsWritten(Content(f), write(ConfigChanged(key, if before.Hashed? then before.hash else "", after.hash)),
                        fates.append, Content(f'))
            else f'.log == f.log
  {
    if IsChange(before, after) {
      var line := write(ConfigChanged(key, if before.Hashed? then before.hash else "", after.hash));
      GrownIsWritten(f.(marker := None), line, fates.append);
    }
  }

  // ---- what one write does to what the log reads as ----

  /** What a read of the log finds once n bytes of the line are behind it. */
  function ReadAfter(f: Files, line: seq<byte>, n: nat, parse: Parser): Option<string> {
    if n == 0 then InLog(f, parse) else Glued(Content(f), Part(line, n), parse)
  }

  lemma GrownReadsAfter(f: Files, line: seq<byte>, n: nat, parse: Parser)
    requires NoNewline(line) && parse([]).None? && n <= |line| + 1
    ensures InLog(Grown(f, line, n), parse) == ReadAfter(f, line, n, parse)
  {
    if n > 0 {
      GrownReads(f, line, n, parse);
    }
  }

  /** The hash recorded once the event is there. */
  function WithEvent(f: Files, e: Event, parse: Parser): Option<string> {
    if SetsHash(e) then Some(e.newHash) else InLog(f, parse)
  }

  /** A log that now reads so reads as if the event were there, or, where its write
      was not said to succeed, as if nothing had been written. */
  predicate RightFor(f: Files, e: Event, now: Option<string>, status: Status, parse: Parser) {
    now == WithEvent(f, e, parse) || (status != Ok && now == InLog(f, parse))
  }

  predicate ReadsRight(f: Files, e: Event, line: seq<byte>, how: Appended, parse: Parser) {
    RightFor(f, e, ReadAfter(f, line, Reached(line, how), parse), how.status, parse)
  }

  /** Behind whole lines every write of an event's own line does. */
  lemma WholeLinesReadRight(f: Files, parse: Parser, e: Event, line: seq<byte>, how: Appended)
    requires ReadsLines(parse) && IsLineOf(line, e, parse) && WholeLines(Content(f))
    ensures ReadsRight(f, e, line, how, parse)
  {
    WholeLogReads(f, parse, e, line, how);
    GrownReadsAfter(f, line, Reached(line, how), parse);
  }

  /** So does one that sets no hash behind a fragment that is no line, if it does
      not complete it. Written whole, it leaves whole lines again. */
  lemma FragmentIsClosed(f: Files, parse: Parser, e: Event, line: seq<byte>)
    requires ReadsLines(parse) && !SetsHash(e) && NoNewline(line)
    requires parse(Fragment(Content(f))).None? && parse(Fragment(Content(f)) + line).None?
    ensures ReadsRight(f, e, line, Appended(Ok, 0), parse) && WholeLines(Content(Grown(f, line, |line| + 1)))
  {
    GluedLine(Content(f), [], parse);
    assert Content(f) + [] == Content(f) && Fragment(Content(f)) + [] == Fragment(Content(f));
    GrownBy(f, line, |line| + 1);
    OneLine([], parse);
  }

  /** The log has grown or not, and the marker beside it is as it was. */
  predicate OnlyGrew(f: Files, g: Files) {
    g.marker == f.marker && |Content(g)| >= |Content(f)| && (f.log.Some? ==> g.log.Some?)
  }

  lemma GrownOnlyGrew(f: Files, line: seq<byte>, n: nat)
    requires n <= |line| + 1
    ensures OnlyGrew(f, Grown(f, line, n)) && (n > 0 ==> Grown(f, line, n).log.Some?)
  {
  }

  lemma StillAgreesIff(f: Files, g: Files, parse: Parser)
    requires OnlyGrew(f, g) && InStep(f)
    ensures InStep(g) && (Speaks(g) <==> Speaks(f))
    ensures Agrees(g, parse) <==> !(Speaks(f) && InLog(g, parse) != Some(f.marker.value.hash))
  {
  }

  // ---- the files keep the ledger's contract while what is written reads right ----

  /** The store these files stand for: a marker that speaks is a memory sure of
      its hash, and any other an unsure one. */
  predicate StandFor(f: Files, parse: Parser, s: Store) {
    && s.memory == Some(if Speaks(f) then Known(f.marker.value.hash) else Unsure)
    && LastSet(s.log) == InLog(f, parse)
  }

  /** The files stand for the store, and the log has only ever been appended to. */
  predicate InTouch(f: Files, parse: Parser, s: Store) {
    StandFor(f, parse, s) && Agrees(f, parse) && InStep(f)
  }

  /** What the write is to the store's log: the event there, or not. */
  function StoreFate(f: Files, e: Event, line: seq<byte>, how: Appended, parse: Parser): Fate {
    FateFor(f, e, ReadAfter(f, line, Reached(line, how), parse), how.status, parse)
  }

  function FateFor(f: Files, e: Event, now: Option<string>, status: Status, parse: Parser): (fate: Fate)
    ensures StatusOf(fate) == status
    ensures status != Ok ==> (TakesEffect(fate) <==> now == WithEvent(f, e, parse))
  {
    match status
    case Ok => Done
    case Error => Fails(now == WithEvent(f, e, parse))
    case Dead => Dies(now == WithEvent(f, e, parse))
  }

  function StoreFates(f: Files, e: Event, line: seq<byte>, fates: FileFates, parse: Parser): Fates {
    Fates(fates.before, StoreFate(f, e, line, fates.append, parse), fates.after)
  }

  /** Each file operation does to the files what the ledger's contract lets the
      matching call do to the store, however it ends: the read, */
  lemma ReadKeepsTheContract(f: Files, parse: Parser, s: Store, writable: bool)
    requires ReadsLines(parse) && InTouch(f, parse, s)
    ensures var (f', r) := ReadFiles(f, parse, writable);
            var (s', answer) := ReadLast(s, Reads(true, writable));
            && InTouch(f', parse, s') && f'.log == f.log
            && answer == (if r.Some? then Found(r.value) else NotFound)
  {
    if f.log.Some? {
      RecordedIsNotEmpty(Lines(f.log.value), parse);
    }
  }

  /** the before-call, done, failed or died in, */
  lemma BeforeKeepsTheContract(f: Files, parse: Parser, s: Store, fate: Fate)
    requires InTouch(f, parse, s)
    ensures InTouch(if TakesEffect(fate) then f.(marker := None) else f, parse, Forget(s, fate))
  {
  }

  /** the write of one event's line behind whatever is there, where it reads right, */
  lemma AppendKeepsTheContract(f: Files, parse: Parser, s: Store, e: Event, line: seq<byte>, how: Appended)
    requires parse([]).None? && InTouch(f, parse, s) && NoNewline(line) && (SetsHash(e) ==> f.marker.None?)
    requires ReadsRight(f, e, line, how, parse)
    ensures InTouch(Grown(f, line, Reached(line, how)), parse, Append(s, e, StoreFate(f, e, line, how, parse)))
  {
    var n := Reached(line, how);
    GrownOnlyGrew(f, line, n);
    GrownReadsAfter(f, line, n, parse);
    RightIsKept(f, Grown(f, line, n), parse, s, e, ReadAfter(f, line, n, parse), how.status, StoreFate(f, e, line, how, parse));
  }

  lemma RightIsKept(f: Files, g: Files, parse: Parser, s: Store, e: Event, now: Option<string>, status: Status, fate: Fate)
    requires OnlyGrew(f, g) && InTouch(f, parse, s) && (SetsHash(e) ==> f.marker.None?)
    requires InLog(g, parse) == now && RightFor(f, e, now, status, parse)
    requires StatusOf(fate) == status && (status != Ok ==> (TakesEffect(fate) <==> now == WithEvent(f, e, parse)))
    ensures InTouch(g, parse, Append(s, e, fate))
  {
    AppendStandsIff(f, g, parse, s, e, fate);
  }

  /** Some way the contract lets the append end leaves a store the files stand for. */
  ghost predicate MayStand(g: Files, parse: Parser, s: Store, e: Event, status: Status) {
    exists fate :: StatusOf(fate) == status && InTouch(g, parse, Append(s, e, fate))
  }

  /** and where it does not, no way the append could have ended stands for it; */
  lemma AppendMayStandIff(f: Files, parse: Parser, s: Store, e: Event, line: seq<byte>, how: Appended)
    requires parse([]).None? && InTouch(f, parse, s) && NoNewline(line) && (SetsHash(e) ==> f.marker.None?)
    ensures MayStand(Grown(f, line, Reached(line, how)), parse, s, e, how.status) <==> ReadsRight(f, e, line, how, parse)
  {
    var n := Reached(line, how);
    GrownOnlyGrew(f, line, n);
    GrownReadsAfter(f, line, n, parse);
    MayStandIff(f, Grown(f, line, n), parse, s, e, ReadAfter(f, line, n, parse), how.status);
  }

  lemma MayStandIff(f: Files, g: Files, parse: Parser, s: Store, e: Event, now: Option<string>, status: Status)
    requires OnlyGrew(f, g) && InTouch(f, parse, s) && (SetsHash(e) ==> f.marker.None?) && InLog(g, parse) == now
    ensures MayStand(g, parse, s, e, status) <==> RightFor(f, e, now, status, parse)
  {
    forall fate
      ensures InTouch(g, parse, Append(s, e, fate)) <==>
                now == if TakesEffect(fate) then WithEvent(f, e, parse) else InLog(f, parse)
    {
      AppendStandsIff(f, g, parse, s, e, fate);
    }
    assert StatusOf(FateFor(f, e, now, status, parse)) == status;
  }

  lemma AppendStandsIff(f: Files, g: Files, parse: Parser, s: Store, e: Event, fate: Fate)
    requires OnlyGrew(f, g) && InTouch(f, parse, s) && (SetsHash(e) ==> f.marker.None?)
    ensures InTouch(g, parse, Append(s, e, fate)) <==>
              InLog(g, parse) == if TakesEffect(fate) then WithEvent(f, e, parse) else InLog(f, parse)
  {
    StillAgreesIff(f, g, parse);
    assert (s.log + [e])[..|s.log|] == s.log;
  }

  /** and the after-call, whether or not the marker comes to be written. */
  lemma AfterKeepsTheContract(f: Files, parse: Parser, s: Store, hash: string, fate: Fate)
    requires InTouch(f, parse, s) && f.log.Some? && hash != "" && InLog(f, parse) == Some(hash)
    ensures InTouch(WithMarker(f, hash, TakesEffect(fate)), parse, Remember(s, hash, fate))
  {
  }

  /** So does a whole recording, wherever it fails or dies. */
  lemma RecordKeepsTheContract(f: Files, parse: Parser, s: Store, e: Event, line: seq<byte>, fates: FileFates)
    requires parse([]).None? && InTouch(f, parse, s) && NoNewline(line) && SetsHash(e) && e.newHash != ""
    requires fates.before.Done? ==> ReadsRight(f, e, line, fates.append, parse)
    ensures var (f', r) := RecordInFiles(f, line, e.newHash, fates);
            var (s', q) := Record(s, e, e.newHash, StoreFates(f, e, line, fates, parse));
            InTouch(f', parse, s') && r == q
  {
    BeforeKeepsTheContract(f, parse, s, fates.before);
    if fates.before.Done? {
      AppendKeepsTheContract(f.(marker := None), parse, Forget(s, Done), e, line, fates.append);
      LaterCallsKeep(f, parse, s, e, line, fates, StoreFate(f, e, line, fates.append, parse));
    }
  }

  lemma LaterCallsKeep(f: Files, parse: Parser, s: Store, e: Event, line: seq<byte>, fates: FileFates, fate: Fate)
    requires fates.before.Done? && SetsHash(e) && e.newHash != "" && InTouch(f, parse, s) && StatusOf(fate) == fates.append.status
    requires InTouch(Grown(f.(marker := None), line, Reached(line, fates.append)), parse, Append(Forget(s, Done), e, fate))
    ensures var (f', r) := RecordInFiles(f, line, e.newHash, fates);
            var (s', q) := Record(s, e, e.newHash, Fates(fates.before, fate, fates.after));
            InTouch(f', parse, s') && r == q
  {
    if fates.append.status == Ok {
      var f2, s2 := Grown(f.(marker := None), line, |line| + 1), Append(Forget(s, Done), e, fate);
      assert (s.log + [e])[..|s.log|] == s.log;
      AfterKeepsTheContract(f2, parse, s2, e.newHash, fates.after);
    }
  }

  // ---- whole runs on the files ----

  datatype FileWorld = FileWorld(files: Files, config: Loaded)

  datatype FileAction =
    | FileGate(read: ReadFate, fates: FileFates)
    | FileSet(key: string, written: Loaded, opens: bool, setFates: FileFates)
    | FileAppend(e: Event, how: Appended)
    | FileEdit(edited: Loaded)

  /** A hash is never empty. */
  predicate Plausible(c: Loaded) {
    c.Hashed? ==> c.hash != ""
  }

  predicate Allowed(a: FileAction) {
    && (a.FileSet? ==> Plausible(a.written))
    && (a.FileAppend? ==> !SetsHash(a.e))
    && (a.FileEdit? ==> Plausible(a.edited))
  }

  function FileStep(w: FileWorld, parse: Parser, write: Writer, a: FileAction): FileWorld {
    match a
    case FileGate(read, fates) => w.(files := ObserveInFiles(w.files, parse, write, w.config, read, fates).0)
    case FileSet(key, written, opens, fates) =>
      FileWorld(SetInFiles(w.files, write, key, w.config, written, opens, fates).0, written)
    case FileAppend(e, how) => w.(files := Grown(w.files, write(e), Reached(write(e), how)))
    case FileEdit(c) => w.(config := c)
  }

  function FileRun(w: FileWorld, parse: Parser, write: Writer, acts: seq<FileAction>): FileWorld {
    if acts == [] then w else FileStep(FileRun(w, parse, write, acts[..|acts| - 1]), parse, write, acts[|acts| - 1])
  }

  /** The event a gate would record. */
  function GateEvent(f: Files, parse: Parser, hash: string): Event {
    DriftFrom(ReadFiles(f, parse, false).1, hash)
  }

  function SetEvent(key: string, before: Loaded, hash: string): Event {
    ConfigChanged(key, if before.Hashed? then before.hash else "", hash)
  }

  /** Whether a gate comes to record its hash. */
  predicate GateRecords(f: Files, parse: Parser, config: Loaded, read: ReadFate) {
    config.Hashed? && read.Reads? && ReadFiles(f, parse, false).1 != Some(config.hash)
  }

  /** What a step writes to the log, if it comes to write: an event, and how the
      write ends. */
  function Written(w: FileWorld, parse: Parser, a: FileAction): Option<(Event, Appended)> {
    match a
    case FileGate(read, fates) =>
      if GateRecords(w.files, parse, w.config, read) && fates.before.Done?
      then Some((GateEvent(w.files, parse, w.config.hash), fates.append)) else None
    case FileSet(key, written, opens, fates) =>
      if IsChange(w.config, written) && opens && fates.before.Done?
      then Some((SetEvent(key, w.config, written.hash), fates.append)) else None
    case FileAppend(e, how) => Some((e, how))
    case FileEdit(_) => None
  }

  predicate StepReadsRight(w: FileWorld, parse: Parser, write: Writer, a: FileAction) {
    var wr := Written(w, parse, a);
    wr.Some? ==> ReadsRight(w.files, wr.value.0, write(wr.value.0), wr.value.1, parse)
  }

  function StoreRead(read: ReadFate): ReadFate {
    if read.Reads? then Reads(true, read.reseat) else read
  }

  /** What a step on the files is to the store they stand for. */
  function StoreAction(w: FileWorld, parse: Parser, write: Writer, a: FileAction): Action {
    match a
    case FileGate(read, fates) =>
      var e := GateEvent(w.files, parse, if w.config.Hashed? then w.config.hash else "");
      EvaluateGate(StoreRead(read), StoreFates(w.files, e, write(e), fates, parse))
    case FileSet(key, written, opens, fates) =>
      var e := SetEvent(key, w.config, if written.Hashed? then written.hash else "");
      SetConfig(key, written, opens, StoreFates(w.files, e, write(e), fates, parse))
    case FileAppend(e, how) => AppendOther(StoreFate(w.files, e, write(e), how, parse))
    case FileEdit(c) => EditConfig(c)
  }

  ghost predicate WritesLines(write: Writer) {
    forall e :: NoNewline(write(e))
  }

  lemma GateKeepsTheContract(f: Files, parse: Parser, write: Writer, s: Store, config: Loaded, read: ReadFate, fates: FileFates)
    requires ReadsLines(parse) && WritesLines(write) && InTouch(f, parse, s) && Plausible(config)
    requires StepReadsRight(FileWorld(f, config), parse, write, FileGate(read, fates))
    ensures var (f', g) := ObserveInFiles(f, parse, write, config, read, fates);
            var a := StoreAction(FileWorld(f, config), parse, write, FileGate(read, fates));
            var (s', q) := Observe(s, config, a.read, a.fates);
            InTouch(f', parse, s') && g == q
  {
    if config.Hashed? && read.Reads? {
      ReadKeepsTheContract(f, parse, s, read.reseat);
      var e := GateEvent(f, parse, config.hash);
      if GateRecords(f, parse, config, read) {
        var f1, s1 := ReadFiles(f, parse, read.reseat).0, ReadLast(s, Reads(true, read.reseat)).0;
        SameLog(f, f1, parse, e, write(e), fates);
        RecordKeepsTheContract(f1, parse, s1, e, write(e), fates);
      }
      GateFollows(f, parse, write, s, config.hash, read.rescan, read.reseat, fates, StoreFates(f, e, write(e), fates, parse));
    }
  }

  lemma SameLog(f: Files, f1: Files, parse: Parser, e: Event, line: seq<byte>, fates: FileFates)
    requires f1.log == f.log
    ensures StoreFates(f1, e, line, fates, parse) == StoreFates(f, e, line, fates, parse)
    ensures ReadsRight(f1, e, line, fates.append, parse) <==> ReadsRight(f, e, line, fates.append, parse)
  {
    SameNow(f, f1, parse, e, ReadAfter(f, line, Reached(line, fates.append), parse), fates.append.status);
    assert ReadAfter(f1, line, Reached(line, fates.append), parse) == ReadAfter(f, line, Reached(line, fates.append), parse);
  }

  lemma SameNow(f: Files, f1: Files, parse: Parser, e: Event, now: Option<string>, status: Status)
    requires f1.log == f.log
    ensures FateFor(f1, e, now, status, parse) == FateFor(f, e, now, status, parse)
    ensures RightFor(f1, e, now, status, parse) <==> RightFor(f, e, now, status, parse)
  {
  }

  /** A gate's outcome follows from its read and its recording. */
  lemma GateFollows(f: Files, parse: Parser, write: Writer, s: Store, hash: string, rescan: bool, reseat: bool, fates: FileFates, fs: Fates)
    requires s.memory.Some?
    requires var (f1, last) := ReadFiles(f, parse, reseat);
             var (s1, answer) := ReadLast(s, Reads(true, reseat));
             && InTouch(f1, parse, s1) && answer == (if last.Some? then Found(last.value) else NotFound)
             && (last != Some(hash) ==>
                   var (f2, r) := RecordInFiles(f1, write(DriftFrom(last, hash)), hash, fates);
                   var (s2, q) := Record(s1, DriftFrom(last, hash), hash, fs);
                   InTouch(f2, parse, s2) && r == q)
    ensures var (f', g) := ObserveInFiles(f, parse, write, Hashed(hash), Reads(rescan, reseat), fates);
            var (s', q) := Observe(s, Hashed(hash), Reads(true, reseat), fs);
            InTouch(f', parse, s') && g == q
  {
  }

  lemma SetKeepsTheContract(f: Files, parse: Parser, write: Writer, s: Store, key: string, before: Loaded, after: Loaded, opens: bool, fates: FileFates)
    requires ReadsLines(parse) && WritesLines(write) && InTouch(f, parse, s) && Plausible(after)
    requires StepReadsRight(FileWorld(f, before), parse, write, FileSet(key, after, opens, fates))
    ensures var (f', g) := SetInFiles(f, write, key, before, after, opens, fates);
            var a := StoreAction(FileWorld(f, before), parse, write, FileSet(key, after, opens, fates));
            var (s', q) := RecordChange(s, key, before, after, opens, a.setFates);
            InTouch(f', parse, s') && g == q
  {
    if IsChange(before, after) && opens {
      var e := SetEvent(key, before, after.hash);
      RecordKeepsTheContract(f, parse, s, e, write(e), fates);
      SetFollows(f, parse, write, s, key, before, after, fates, StoreFates(f, e, write(e), fates, parse));
    }
  }

  /** So is a `config set`'s. */
  lemma SetFollows(f: Files, parse: Parser, write: Writer, s: Store, key: string, before: Loaded, after: Loaded, fates: FileFates, fs: Fates)
    requires IsChange(before, after)
    requires var e := SetEvent(key, before, after.hash);
             var (f2, r) := RecordInFiles(f, write(e), after.hash, fates);
             var (s2, q) := Record(s, e, after.hash, fs);
             InTouch(f2, parse, s2) && r == q
    ensures var (f', g) := SetInFiles(f, write, key, before, after, true, fates);
            var (s', q) := RecordChange(s, key, before, after, true, fs);
            InTouch(f', parse, s') && g == q
  {
  }

  /** The files stand for the store, under the same configuration. */
  predicate Alike(w: FileWorld, parse: Parser, v: World) {
    InTouch(w.files, parse, v.store) && w.config == v.config
  }

  lemma StepKeepsTheContract(w: FileWorld, parse: Parser, write: Writer, v: World, a: FileAction)
    requires ReadsLines(parse) && WritesLines(write) && Allowed(a) && Plausible(w.config)
    requires Alike(w, parse, v) && StepReadsRight(w, parse, write, a)
    ensures Alike(FileStep(w, parse, write, a), parse, Step(v, StoreAction(w, parse, write, a)))
    ensures Plausible(FileStep(w, parse, write, a).config)
  {
    match a {
      case FileGate(read, fates) => GateStands(w, parse, write, v, read, fates, StoreAction(w, parse, write, a));
      case FileSet(key, written, opens, fates) =>
        SetStands(w, parse, write, v, key, written, opens, fates, StoreAction(w, parse, write, a));
      case FileAppend(e, how) =>
        OtherKeepsTheContract(w.files, parse, write(e), v.store, e, how, StoreAction(w, parse, write, a).fate);
        OtherStands(w, parse, write, v, e, how, StoreAction(w, parse, write, a).fate);
      case FileEdit(_) =>
    }
  }

  lemma GateStands(w: FileWorld, parse: Parser, write: Writer, v: World, read: ReadFate, fates: FileFates, act: Action)
    requires ReadsLines(parse) && WritesLines(write) && Plausible(w.config) && Alike(w, parse, v)
    requires StepReadsRight(w, parse, write, FileGate(read, fates))
    requires act == StoreAction(w, parse, write, FileGate(read, fates))
    ensures Alike(FileStep(w, parse, write, FileGate(read, fates)), parse, Step(v, act))
  {
    GateKeepsTheContract(w.files, parse, write, v.store, w.config, read, fates);
  }

  lemma SetStands(w: FileWorld, parse: Parser, write: Writer, v: World, key: string, written: Loaded, opens: bool, fates: FileFates, act: Action)
    requires ReadsLines(parse) && WritesLines(write) && Plausible(written) && Alike(w, parse, v)
    requires StepReadsRight(w, parse, write, FileSet(key, written, opens, fates))
    requires act == StoreAction(w, parse, write, FileSet(key, written, opens, fates))
    ensures Alike(FileStep(w, parse, write, FileSet(key, written, opens, fates)), parse, Step(v, act))
  {
    SetKeepsTheContract(w.files, parse, write, v.store, key, w.config, written, opens, fates);
  }

  lemma OtherStands(w: FileWorld, parse: Parser, write: Writer, v: World, e: Event, how: Appended, fate: Fate)
    requires w.config == v.config
    requires InTouch(Grown(w.files, write(e), Reached(write(e), how)), parse, Append(v.store, OtherEvent, fate))
    ensures Alike(FileStep(w, parse, write, FileAppend(e, how)), parse, Step(v, AppendOther(fate)))
  {
  }

  lemma OtherKeepsTheContract(f: Files, parse: Parser, line: seq<byte>, s: Store, e: Event, how: Appended, fate: Fate)
    requires parse([]).None? && InTouch(f, parse, s) && NoNewline(line) && !SetsHash(e)
    requires ReadsRight(f, e, line, how, parse) && fate == StoreFate(f, e, line, how, parse)
    ensures InTouch(Grown(f, line, Reached(line, how)), parse, Append(s, OtherEvent, fate))
  {
    AppendKeepsTheContract(f, parse, s, e, line, how);
    AppendsAlike(s, e, fate, Grown(f, line, Reached(line, how)), parse);
  }

  /** An event that sets no hash is to the memory and the last hash as any other. */
  lemma AppendsAlike(s: Store, e: Event, fate: Fate, g: Files, parse: Parser)
    requires !SetsHash(e)
    requires InTouch(g, parse, Append(s, e, fate))
    ensures InTouch(g, parse, Append(s, OtherEvent, fate))
  {
    assert (s.log + [e])[..|s.log|] == s.log && (s.log + [OtherEvent])[..|s.log|] == s.log;
  }

  /** Where a run may start, and what it may be made of. */
  ghost predicate Starts(w: FileWorld, parse: Parser, write: Writer, acts: seq<FileAction>) {
    && ReadsLines(parse) && WritesLines(write)
    && Agrees(w.files, parse) && InStep(w.files) && Plausible(w.config)
    && forall a :: a in acts ==> Allowed(a)
  }

  ghost predicate AllReadRight(w: FileWorld, parse: Parser, write: Writer, acts: seq<FileAction>) {
    forall i :: 0 <= i < |acts| ==> StepReadsRight(FileRun(w, parse, write, acts[..i]), parse, write, acts[i])
  }

  /** A store the files stand for. */
  function Standing(f: Files, parse: Parser): Store {
    Store(if InLog(f, parse).None? then [] else [ConfigChanged("", "", InLog(f, parse).value)],
          Some(if Speaks(f) then Known(f.marker.value.hash) else Unsure))
  }

  /** The run of the store that a run on the files stands for. */
  function StoreActions(w: FileWorld, parse: Parser, write: Writer, acts: seq<FileAction>): (r: seq<Action>)
    ensures |r| == |acts| && AllWellFormed(r)
  {
    if acts == [] then []
    else
      var n := |acts| - 1;
      StoreActions(w, parse, write, acts[..n]) + [StoreAction(FileRun(w, parse, write, acts[..n]), parse, write, acts[n])]
  }

  /** Over every run in which what is written reads right, behind whatever it is
      written, the files stand for the store's run step by step, whatever fails,
      dies or breaks off. */
  lemma {:induction false} FileRunsKeepTheContract(w: FileWorld, parse: Parser, write: Writer, acts: seq<FileAction>)
    requires Starts(w, parse, write, acts) && AllReadRight(w, parse, write, acts)
    ensures var v := World(Standing(w.files, parse), w.config);
            Alike(FileRun(w, parse, write, acts), parse, Run(v, StoreActions(w, parse, write, acts)))
    ensures Plausible(FileRun(w, parse, write, acts).config)
  {
    if acts == [] {
      assert [ConfigChanged("", "", "")][..0] == [];
    } else {
      var n := |acts| - 1;
      assert forall i :: 0 <= i < n ==> acts[..n][..i] == acts[..i];
      FileRunsKeepTheContract(w, parse, write, acts[..n]);
      var v := Run(World(Standing(w.files, parse), w.config), StoreActions(w, parse, write, acts[..n]));
      StepKeepsTheContract(FileRun(w, parse, write, acts[..n]), parse, write, v, acts[n]);
      assert StoreActions(w, parse, write, acts)[..n] == StoreActions(w, parse, write, acts[..n]);
    }
  }

  // ---- when the marker and the log come apart ----

  /** The recording comes to write its marker. */
  predicate Marks(fates: FileFates) {
    fates.before.Done? && fates.append.status == Ok && TakesEffect(fates.after)
  }

  /** The step leaves a marker that speaks beside a log that does not say the same:
      a recording that writes the marker over a line that does not read as its hash
      where it stands, or an append, in whole or in part, that changes what the log
      reads as beside a marker that speaks. */
  predicate Spoils(w: FileWorld, parse: Parser, write: Writer, a: FileAction) {
    match a
    case FileGate(read, fates) =>
      && GateRecords(w.files, parse, w.config, read) && Marks(fates)
      && Glued(Content(w.files), write(GateEvent(w.files, parse, w.config.hash)), parse) != Some(w.config.hash)
    case FileSet(key, written, opens, fates) =>
      && IsChange(w.config, written) && opens && Marks(fates)
      && Glued(Content(w.files), write(SetEvent(key, w.config, written.hash)), parse) != Some(written.hash)
    case FileAppend(e, how) =>
      && Speaks(w.files) && Reached(write(e), how) > 0
      && Glued(Content(w.files), Part(write(e), Reached(write(e), how)), parse) != Some(w.files.marker.value.hash)
    case FileEdit(_) => false
  }

  lemma MarkedIs(f: Files, line: seq<byte>, hash: string, fates: FileFates)
    ensures Marks(fates) ==>
              RecordInFiles(f, line, hash, fates).0 == WithMarker(Grown(f.(marker := None), line, |line| + 1), hash, true)
    ensures !Marks(fates) ==>
              RecordInFiles(f, line, hash, fates).0 == f || RecordInFiles(f, line, hash, fates).0.marker.None?
  {
  }

  /** The marker and the log after a recording that writes the marker. */
  lemma SeatedIs(f: Files, line: seq<byte>, hash: string, parse: Parser)
    requires NoNewline(line) && parse([]).None? && hash != ""
    ensures var g := WithMarker(Grown(f.(marker := None), line, |line| + 1), hash, true);
            && InStep(g) && Speaks(g) && ReadFiles(g, parse, true) == (g, Some(hash))
            && InLog(g, parse) == Glued(Content(f), line, parse)
            && (Agrees(g, parse) <==> Glued(Content(f), line, parse) == Some(hash))
  {
    var f1 := f.(marker := None);
    var f2 := Grown(f1, line, |line| + 1);
    SeatedReads(f2, hash, parse);
    assert InLog(f2, parse) == Glued(Content(f), line, parse) by {
      GrownReads(f1, line, |line| + 1, parse);
    }
  }

  lemma RecordAgreesIff(f: Files, parse: Parser, line: seq<byte>, hash: string, fates: FileFates)
    requires parse([]).None? && NoNewline(line) && hash != "" && Agrees(f, parse) && InStep(f)
    ensures var f' := RecordInFiles(f, line, hash, fates).0;
            InStep(f') && (Agrees(f', parse) <==> !(Marks(fates) && Glued(Content(f), line, parse) != Some(hash)))
  {
    MarkedIs(f, line, hash, fates);
    SeatedIs(f, line, hash, parse);
  }

  lemma SeatedReads(f: Files, hash: string, parse: Parser)
    requires f.log.Some? && hash != ""
    ensures var g := WithMarker(f, hash, true);
            && InStep(g) && Speaks(g) && ReadFiles(g, parse, true) == (g, Some(hash)) && InLog(g, parse) == InLog(f, parse)
            && (Agrees(g, parse) <==> InLog(f, parse) == Some(hash))
  {
  }

  lemma ReadAgrees(f: Files, parse: Parser, writable: bool)
    requires Agrees(f, parse) && InStep(f)
    ensures var (f1, last) := ReadFiles(f, parse, writable);
            && Agrees(f1, parse) && InStep(f1) && f1.log == f.log
            && last == InLog(f, parse) && last == ReadFiles(f, parse, false).1
  {
  }

  lemma AppendAgreesIff(f: Files, parse: Parser, line: seq<byte>, n: nat)
    requires parse([]).None? && NoNewline(line) && n <= |line| + 1 && Agrees(f, parse) && InStep(f)
    ensures var f' := Grown(f, line, n);
            && InStep(f')
            && (Agrees(f', parse) <==>
                  !(Speaks(f) && n > 0 && Glued(Content(f), Part(line, n), parse) != Some(f.marker.value.hash)))
  {
    GrownOnlyGrew(f, line, n);
    StillAgreesIff(f, Grown(f, line, n), parse);
    GrownReadsAfter(f, line, n, parse);
  }

  /** Whatever a marker and log that agree are put through, they still agree exactly
      unless the step spoils them. */
  lemma StepAgreesIff(w: FileWorld, parse: Parser, write: Writer, a: FileAction)
    requires ReadsLines(parse) && WritesLines(write) && Allowed(a) && Plausible(w.config)
    requires Agrees(w.files, parse) && InStep(w.files)
    ensures var w' := FileStep(w, parse, write, a);
            && InStep(w'.files) && Plausible(w'.config)
            && (Agrees(w'.files, parse) <==> !Spoils(w, parse, write, a))
  {
    var f := w.files;
    match a {
      case FileGate(read, fates) =>
        if w.config.Hashed? && read.Reads? {
          ReadAgrees(f, parse, read.reseat);
          var f1 := ReadFiles(f, parse, read.reseat).0;
          RecordAgreesIff(f1, parse, write(GateEvent(f, parse, w.config.hash)), w.config.hash, fates);
        }
      case FileSet(key, written, opens, fates) =>
        if IsChange(w.config, written) && opens {
          RecordAgreesIff(f, parse, write(SetEvent(key, w.config, written.hash)), written.hash, fates);
        }
      case FileAppend(e, how) => AppendAgreesIff(f, parse, write(e), Reached(write(e), how));
      case FileEdit(_) =>
    }
  }

  ghost predicate NoneSpoils(w: FileWorld, parse: Parser, write: Writer, acts: seq<FileAction>) {
    forall i :: 0 <= i < |acts| ==> !Spoils(FileRun(w, parse, write, acts[..i]), parse, write, acts[i])
  }

  ghost predicate AgreesThroughout(w: FileWorld, parse: Parser, write: Writer, acts: seq<FileAction>) {
    forall i :: 0 <= i <= |acts| ==> Agrees(FileRun(w, parse, write, acts[..i]).files, parse)
  }

  /** Over every run, torn writes and all, the marker agrees with the log at every
      point exactly when no step spoils it. */
  lemma {:induction false} RunAgreesIff(w: FileWorld, parse: Parser, write: Writer, acts: seq<FileAction>)
    requires Starts(w, parse, write, acts)
    ensures AgreesThroughout(w, parse, write, acts) <==> NoneSpoils(w, parse, write, acts)
    ensures NoneSpoils(w, parse, write, acts) ==>
              InStep(FileRun(w, parse, write, acts).files) && Plausible(FileRun(w, parse, write, acts).config)
  {
    if acts == [] {
      assert acts[..0] == acts;
    } else {
      var n := |acts| - 1;
      var before := acts[..n];
      assert forall i :: 0 <= i <= n ==> before[..i] == acts[..i];
      RunAgreesIff(w, parse, write, before);
      assert acts[..|acts|] == acts && before[..n] == before;
      assert AgreesThroughout(w, parse, write, acts) <==>
               AgreesThroughout(w, parse, write, before) && Agrees(FileRun(w, parse, write, acts).files, parse);
      assert NoneSpoils(w, parse, write, acts) <==>
               NoneSpoils(w, parse, write, before) && !Spoils(FileRun(w, parse, write, before), parse, write, acts[n]);
      if NoneSpoils(w, parse, write, before) {
        assert Agrees(FileRun(w, parse, write, before[..n]).files, parse);
        StepAgreesIff(FileRun(w, parse, write, before), parse, write, acts[n]);
      }
    }
  }

  /** From a marker and log that agree, an evaluated gate's hash is the configuration
      in force, and a read of the whole log finds it exactly unless the gate spoils. */
  lemma GateIsLoggedIff(w: FileWorld, parse: Parser, write: Writer, read: ReadFate, fates: FileFates)
    requires ReadsLines(parse) && WritesLines(write) && Plausible(w.config) && Agrees(w.files, parse) && InStep(w.files)
    ensures var (f', g) := ObserveInFiles(w.files, parse, write, w.config, read, fates);
            g.Evaluated? ==>
              && w.config == Hashed(g.hash)
              && (InLog(f', parse) == Some(g.hash) <==> !Spoils(w, parse, write, FileGate(read, fates)))
  {
    if ObserveInFiles(w.files, parse, write, w.config, read, fates).1.Evaluated? {
      EvaluatedSpeaks(w.files, parse, write, w.config, read, fates);
      StepAgreesIff(w, parse, write, FileGate(read, fates));
    }
  }

  /** After an evaluated gate the hash is in the log where the two agree. */
  lemma EvaluatedSpeaks(f: Files, parse: Parser, write: Writer, config: Loaded, read: ReadFate, fates: FileFates)
    requires ReadsLines(parse) && WritesLines(write) && Plausible(config) && Agrees(f, parse) && InStep(f)
    requires ObserveInFiles(f, parse, write, config, read, fates).1.Evaluated?
    ensures var (f', g) := ObserveInFiles(f, parse, write, config, read, fates);
            config == Hashed(g.hash) && (InLog(f', parse) == Some(g.hash) <==> Agrees(f', parse))
  {
    ReadAgrees(f, parse, read.reseat);
    var (f1, last) := ReadFiles(f, parse, read.reseat);
    if last != Some(config.hash) {
      SpeaksOnceRecorded(f1, parse, write(DriftFrom(last, config.hash)), config.hash, fates);
    }
  }

  lemma SpeaksOnceRecorded(f: Files, parse: Parser, line: seq<byte>, hash: string, fates: FileFates)
    requires parse([]).None? && NoNewline(line) && hash != "" && RecordInFiles(f, line, hash, fates).1.Recorded?
    ensures var g := RecordInFiles(f, line, hash, fates).0;
            Agrees(g, parse) <==> InLog(g, parse) == Some(hash)
  {
    RecordedBehindAnything(f, line, hash, fates, parse);
  }

  /** At any point of a run no step of which has spoiled, an evaluated gate's hash is
      the configuration then in force, and a read of the whole log finds it exactly
      unless the gate itself spoils. */
  lemma {:induction false} EveryUnspoiledGateIsLogged(w: FileWorld, parse: Parser, write: Writer, acts: seq<FileAction>, i: nat)
    requires Starts(w, parse, write, acts) && i < |acts| && acts[i].FileGate?
    requires NoneSpoils(w, parse, write, acts[..i])
    ensures var at := FileRun(w, parse, write, acts[..i]);
            var (f', g) := ObserveInFiles(at.files, parse, write, at.config, acts[i].read, acts[i].fates);
            g.Evaluated? ==>
              && at.config == Hashed(g.hash)
              && (InLog(f', parse) == Some(g.hash) <==> !Spoils(at, parse, write, acts[i]))
  {
    RunAgreesIff(w, parse, write, acts[..i]);
    var at := FileRun(w, parse, write, acts[..i]);
    assert acts[..i][..i] == acts[..i];
    assert Agrees(FileRun(w, parse, write, acts[..i][..i]).files, parse);
    GateIsLoggedIff(at, parse, write, acts[i].read, acts[i].fates);
  }

  lemma WholeLinesGlue(file: seq<byte>, line: seq<byte>, parse: Parser)
    requires parse([]).None? && WholeLines(file)
    ensures Glued(file, line, parse) == if parse(line).Some? then parse(line) else LastHash(file, parse)
  {
    WholeLinesSettle(file, parse);
    assert [] + line == line;
  }

  /** No step spoils behind whole lines, where every event is written as its line. */
  lemma WholeLinesDoNotSpoil(w: FileWorld, parse: Parser, write: Writer, a: FileAction)
    requires ReadsLines(parse) && Writes(write, parse) && Allowed(a) && Plausible(w.config)
    requires Agrees(w.files, parse) && InStep(w.files) && WholeLines(Content(w.files))
    ensures !Spoils(w, parse, write, a)
  {
    var f := w.files;
    match a {
      case FileGate(read, fates) =>
        if w.config.Hashed? {
          HashBehindWholeLines(f, parse, write, GateEvent(f, parse, w.config.hash));
        }
      case FileSet(key, written, opens, fates) =>
        if written.Hashed? {
          HashBehindWholeLines(f, parse, write, SetEvent(key, w.config, written.hash));
        }
      case FileAppend(e, how) =>
        if Speaks(f) {
          AppendToWholeLines(f, write(e), Reached(write(e), how), e, parse);
        }
      case FileEdit(_) =>
    }
  }

  lemma HashBehindWholeLines(f: Files, parse: Parser, write: Writer, e: Event)
    requires parse([]).None? && Writes(write, parse) && WholeLines(Content(f)) && SetsHash(e) && e.newHash != ""
    ensures Glued(Content(f), write(e), parse) == Some(e.newHash)
  {
    WholeLinesGlue(Content(f), write(e), parse);
  }

  lemma AppendToWholeLines(f: Files, line: seq<byte>, n: nat, e: Event, parse: Parser)
    requires ReadsLines(parse) && IsLineOf(line, e, parse) && !SetsHash(e) && n <= |line| + 1
    requires Agrees(f, parse) && WholeLines(Content(f)) && Speaks(f)
    ensures Glued(Content(f), Part(line, n), parse) == Some(f.marker.value.hash)
  {
    WholeLinesGlue(Content(f), Part(line, n), parse);
    assert n >= |line| ==> Part(line, n) == line;
  }

  /** No step meets a broken-off line: at most the last one leaves one. */
  predicate OnWholeLines(w: FileWorld, parse: Parser, write: Writer, acts: seq<FileAction>) {
    forall i :: 0 <= i < |acts| ==> WholeLines(Content(FileRun(w, parse, write, acts[..i]).files))
  }

  lemma {:induction false} HashesStayPlausible(w: FileWorld, parse: Parser, write: Writer, acts: seq<FileAction>)
    requires Plausible(w.config) && forall a :: a in acts ==> Allowed(a)
    ensures Plausible(FileRun(w, parse, write, acts).config)
  {
    if acts != [] {
      HashesStayPlausible(w, parse, write, acts[..|acts| - 1]);
      assert Allowed(acts[|acts| - 1]);
    }
  }

  lemma StepOnWholeLines(w: FileWorld, parse: Parser, write: Writer, a: FileAction)
    requires ReadsLines(parse) && Writes(write, parse) && Allowed(a) && Plausible(w.config) && WholeLines(Content(w.files))
    ensures StepReadsRight(w, parse, write, a)
  {
    var wr := Written(w, parse, a);
    if wr.Some? {
      WholeLinesReadRight(w.files, parse, wr.value.0, write(wr.value.0), wr.value.1);
    }
  }

  /** Over a run on whole lines, in which every event is written as its line, all that
      is written reads right and no step spoils. */
  lemma WholeLinesRunsAreRight(w: FileWorld, parse: Parser, write: Writer, acts: seq<FileAction>)
    requires Starts(w, parse, write, acts) && Writes(write, parse) && OnWholeLines(w, parse, write, acts)
    ensures AllReadRight(w, parse, write, acts) && NoneSpoils(w, parse, write, acts)
  {
    forall i | 0 <= i < |acts|
      ensures StepReadsRight(FileRun(w, parse, write, acts[..i]), parse, write, acts[i])
    {
      HashesStayPlausible(w, parse, write, acts[..i]);
      StepOnWholeLines(FileRun(w, parse, write, acts[..i]), parse, write, acts[i]);
    }
    forall i | 0 <= i < |acts|
      ensures !Spoils(FileRun(w, parse, write, acts[..i]), parse, write, acts[i])
    {
      assert forall j :: 0 <= j < i ==> acts[..i][..j] == acts[..j];
      FileRunsKeepTheContract(w, parse, write, acts[..i]);
      WholeLinesDoNotSpoil(FileRun(w, parse, write, acts[..i]), parse, write, acts[i]);
    }
  }

  // ---- behind a broken-off line they do come apart ----

  /** Recording behind any log at all: the marker then speaks for the hash, and
      agrees with the log exactly when the line, glued to the fragment it was
      written behind, still reads as that hash. */
  lemma RecordedBehindAnything(f: Files, line: seq<byte>, hash: string, fates: FileFates, parse: Parser)
    requires NoNewline(line) && parse([]).None? && hash != ""
    requires RecordInFiles(f, line, hash, fates).1.Recorded?
    ensures var g := RecordInFiles(f, line, hash, fates).0;
            && Speaks(g) && ReadFiles(g, parse, true) == (g, Some(hash))
            && (Agrees(g, parse) <==> Glued(Content(f), line, parse) == Some(hash))
            && InLog(g, parse) == Glued(Content(f), line, parse)
  {
    assert Marks(fates);
    MarkedIs(f, line, hash, fates);
    SeatedIs(f, line, hash, parse);
  }

  /** A gate recorded behind any log is logged exactly then; logged or not, the
      next gate finds the hash remembered and is quiet. */
  lemma RecordedGateIsLoggedIff(f: Files, parse: Parser, write: Writer, hash: string, read: ReadFate, fates: FileFates, writable: bool, fates': FileFates)
    requires parse([]).None? && hash != "" && NoNewline(write(GateEvent(f, parse, hash)))
    requires ObserveInFiles(f, parse, write, Hashed(hash), read, fates).1 == Evaluated(hash, true)
    ensures var g := ObserveInFiles(f, parse, write, Hashed(hash), read, fates).0;
            && (InLog(g, parse) == Some(hash) <==> Glued(Content(f), write(GateEvent(f, parse, hash)), parse) == Some(hash))
            && ObserveInFiles(g, parse, write, Hashed(hash), Reads(true, writable), fates') == (g, Evaluated(hash, false))
  {
    var (f1, last) := ReadFiles(f, parse, read.reseat);
    var (g, r) := RecordInFiles(f1, write(DriftFrom(last, hash)), hash, fates);
    assert last == ReadFiles(f, parse, false).1 && Content(f1) == Content(f);
    assert r.Recorded? && ObserveInFiles(f, parse, write, Hashed(hash), read, fates).0 == g;
    RecordedBehindAnything(f1, write(DriftFrom(last, hash)), hash, fates, parse);
  }

  /** Lines of two bytes: the first, the only one that parses, sets a hash. */
  function TwoBytes(e: Event): seq<byte> {
    if SetsHash(e) then [1, 2] else [3]
  }

  function ReadTwoBytes(line: seq<byte>): Option<string> {
    if line == [1, 2] then Some("h") else None
  }

  const WHOLE := FileFates(Done, Appended(Ok, 0), Done)

  /** The files of a gate under h, and how it ends. */
  function GateUnderH(f: Files, fates: FileFates): (Files, Gate) {
    ObserveInFiles(f, ReadTwoBytes, TwoBytes, Hashed("h"), Reads(true, true), fates)
  }

  lemma DiesWith(n: nat)
    requires 0 < n <= 2
    ensures GateUnderH(Files(None, None), FileFates(Done, Appended(Dead, n), Done)) == (Files(Some([1, 2][..n]), None), Interrupted(true))
  {
    var line: seq<byte> := [1, 2];
    assert [] + (line + [NEWLINE])[..n] == line[..n];
  }

  lemma OneFragment(part: seq<byte>, line: seq<byte>)
    requires NoNewline(part)
    ensures LastNewline(part) == -1 && Fragment(part) + line == part + line
  {
  }

  lemma OneByteGlued()
    ensures var (f, g) := GateUnderH(Files(Some([1]), None), WHOLE);
            && g == Evaluated("h", true) && InLog(f, ReadTwoBytes) == None && ReadFiles(f, ReadTwoBytes, true).1 == Some("h")
  {
    OneLine([1], ReadTwoBytes);
    OneFragment([1], [1, 2]);
    RecordedBehindAnything(Files(Some([1]), None), [1, 2], "h", WHOLE, ReadTwoBytes);
  }

  /** A gate dies with one byte of its line written. The next gate is evaluated and
      its hash remembered, and no read of the log finds it. */
  lemma TornLineHidesTheNextGate()
    ensures ReadsLines(ReadTwoBytes) && forall last :: IsLineOf(TwoBytes(DriftFrom(last, "h")), DriftFrom(last, "h"), ReadTwoBytes)
    ensures var (f1, g1) := GateUnderH(Files(None, None), FileFates(Done, Appended(Dead, 1), Done));
            var (f2, g2) := GateUnderH(f1, WHOLE);
            && g1 == Interrupted(true) && g2 == Evaluated("h", true) && InLog(f2, ReadTwoBytes) == None
            && ReadFiles(f2, ReadTwoBytes, true).1 == Some("h")
  {
    DiesWith(1);
    assert [1 as byte, 2][..1] == [1];
    OneByteGlued();
  }

  lemma NewlineMissing()
    ensures var f1 := Files(Some([1, 2]), None);
            && InLog(f1, ReadTwoBytes) == Some("h")
            && GateUnderH(f1, WHOLE) == (f1.(marker := Some(Marker("h", 2))), Evaluated("h", false))
  {
    OneLine([1, 2], ReadTwoBytes);
  }

  lemma GluedAway()
    ensures var f2 := Files(Some([1, 2]), Some(Marker("h", 2)));
            var f3 := Grown(f2, [3], 2);
            && InLog(f3, ReadTwoBytes) == None && GateUnderH(f3, WHOLE) == (f3, Evaluated("h", false))
  {
    var f2 := Files(Some([1, 2]), Some(Marker("h", 2)));
    OneFragment([1, 2], [3]);
    GrownReads(f2, [3], 2, ReadTwoBytes);
    assert |Content(Grown(f2, [3], 2))| == 4;
  }

  /** A gate dies with its line whole and the newline missing. The next gate finds
      the hash there, re-seats the marker and is quiet. Another event's line, written
      whole, is glued to that one: the gate after it is quiet, and no read of the log
      finds the hash. No recording came behind a broken-off line. */
  lemma AnotherEventErasesTheHash(e: Event)
    requires !SetsHash(e)
    ensures var (f1, g1) := GateUnderH(Files(None, None), FileFates(Done, Appended(Dead, 2), Done));
            var (f2, g2) := GateUnderH(f1, WHOLE);
            var f3 := Grown(f2, TwoBytes(e), Reached(TwoBytes(e), Appended(Ok, 0)));
            var (f4, g4) := GateUnderH(f3, WHOLE);
            && g1 == Interrupted(true) && g2 == Evaluated("h", false) && InLog(f2, ReadTwoBytes) == Some("h")
            && g4 == Evaluated("h", false) && InLog(f4, ReadTwoBytes) == None
  {
    DiesWith(2);
    assert [1 as byte, 2][..2] == [1, 2];
    NewlineMissing();
    GluedAway();
  }

  // ---- a writer and a parser as assumed ----

  const LAST: byte := 4
  const NOHASH: byte := 5

  /** A hash as bytes no line feed is among, three to a character, and a last one
      that stands nowhere else. */
  function Encoded(hash: string): (line: seq<byte>)
    ensures |line| == 3 * |hash| + 1 && line[|line| - 1] == LAST
    ensures forall i :: 0 <= i < |line| - 1 ==> line[i] >= 128
  {
    if hash == "" then [LAST]
    else
      var c := hash[0] as int;
      [(128 + c / 16384) as byte, (128 + c / 128 % 128) as byte, (128 + c % 128) as byte] + Encoded(hash[1..])
  }

  lemma SameDigits(c: nat, d: nat)
    requires c / 16384 == d / 16384 && c / 128 % 128 == d / 128 % 128 && c % 128 == d % 128
    ensures c == d
  {
    assert c == c / 16384 * 16384 + c / 128 % 128 * 128 + c % 128;
    assert d == d / 16384 * 16384 + d / 128 % 128 * 128 + d % 128;
  }

  lemma {:induction false} EncodedIsInjective(g: string, h: string)
    requires Encoded(g) == Encoded(h)
    ensures g == h
  {
    if g != "" {
      assert |h| == |g|;
      assert Encoded(g)[0] == Encoded(h)[0] && Encoded(g)[1] == Encoded(h)[1] && Encoded(g)[2] == Encoded(h)[2];
      SameDigits(g[0] as int, h[0] as int);
      assert Encoded(g)[3..] == Encoded(g[1..]) && Encoded(h)[3..] == Encoded(h[1..]);
      EncodedIsInjective(g[1..], h[1..]);
      assert g == [g[0]] + g[1..] && h == [h[0]] + h[1..];
    }
  }

  ghost function Decoded(line: seq<byte>): Option<string> {
    if h: string :| h != "" && Encoded(h) == line then Some(h) else None
  }

  lemma DecodesBack(hash: string)
    requires hash != ""
    ensures Decoded(Encoded(hash)) == Some(hash)
  {
    forall h | Encoded(h) == Encoded(hash)
      ensures h == hash
    {
      EncodedIsInjective(h, hash);
    }
  }

  lemma DoesNotDecode(line: seq<byte>)
    requires line == [] || line[|line| - 1] != LAST
    ensures Decoded(line) == None
  {
  }

  function EncodedEvent(e: Event): seq<byte> {
    if SetsHash(e) then Encoded(e.newHash) else [NOHASH]
  }

  lemma EncodedEventIsLine(e: Event)
    requires NamesAHash(e)
    ensures IsLineOf(EncodedEvent(e), e, Decoded)
  {
    var line := EncodedEvent(e);
    if SetsHash(e) {
      DecodesBack(e.newHash);
    } else {
      DoesNotDecode(line);
    }
    forall n | 0 <= n < |line|
      ensures Decoded(line[..n]).None?
    {
      DoesNotDecode(line[..n]);
    }
  }

  /** What is asked of a writer and its parser can be met. */
  lemma EncodedEventsAreLines()
    ensures ReadsLines(Decoded) && Writes(EncodedEvent, Decoded) && WritesLines(EncodedEvent)
  {
    DoesNotDecode([]);
    forall e | NamesAHash(e)
      ensures IsLineOf(EncodedEvent(e), e, Decoded)
    {
      EncodedEventIsLine(e);
    }
  }

  // ---- a replaced log ----

  /** Any marker beside any log, as when the log was replaced: the read answers what
      the log records exactly when the marker is blank, the log is shorter than the
      one it was written beside, or the log does record the marker's hash. */
  lemma MarkerIsRightIff(log: seq<byte>, m: Marker, parse: Parser, writable: bool)
    ensures var f := Files(Some(log), Some(m));
            ReadFiles(f, parse, writable).1 == InLog(f, parse) <==>
              m.hash == "" || |log| < m.ledgerSize || LastHash(log, parse) == Some(m.hash)
  {
  }

  /** A log replaced by a shorter one is read right until it has grown back. Then,
      for lines that set no hash, the read answers a hash the log never held. */
  lemma ReplacedLogCanOutgrowItsMarker(m: Marker, line: seq<byte>, parse: Parser)
    requires ReadsLines(parse) && m.hash != "" && NoNewline(line) && parse(line).None?
    requires 0 < m.ledgerSize <= |line| + 1
    ensures var grown := Grown(Files(Some([]), Some(m)), line, |line| + 1);
            && ReadFiles(Files(Some([]), Some(m)), parse, true).1 == None
            && ReadFiles(grown, parse, true).1 == Some(m.hash) && InLog(grown, parse) == None
  {
    var f := Files(Some([]), Some(m));
    OneLine([], parse);
    WholePartReads(f, parse, line, |line| + 1);
    assert |Content(Grown(f, line, |line| + 1))| == |line| + 1;
  }
}
