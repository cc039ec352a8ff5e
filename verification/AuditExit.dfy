/** The exit of an audit run: rows marked in place where a stored record cannot be
    trusted, and 10 over 5 over 1. */
module AuditExit {
  import opened Wrappers
  import opened Seqs

  /** What a record read can fail on. */
  datatype Fault = IntegrityFault(text: string) | ConflictFault(text: string) | OtherFault(text: string)

  datatype VulnStatus = NotScanned | IntegrityFailed | RecordsConflict | Stated(word: string)

  datatype Row = Row(
    coordinate: string,
    vulnStatus: VulnStatus,
    vulnReason: string,
    findings: nat,
    withdrawn: nat,
    integrity: Option<Fault>,
    policyBlocking: bool,
    policyUnevaluated: bool)

  predicate IsMarked(r: Row) {
    r.vulnStatus.IntegrityFailed? || r.vulnStatus.RecordsConflict?
  }

  /** A marked row carries a failure. */
  predicate Sound(r: Row) {
    IsMarked(r) ==> r.integrity.Some?
  }

  // ---- marking ----

  predicate Marks(fault: Option<Fault>) {
    fault.Some? && !fault.value.OtherFault?
  }

  function Marked(r: Row, fault: Option<Fault>, prefix: string): Row {
    if !Marks(fault) then r
    else
      var status := if fault.value.IntegrityFault? then IntegrityFailed else RecordsConflict;
      var reason := if fault.value.IntegrityFault? then prefix + fault.value.text else fault.value.text;
      r.(vulnStatus := status, vulnReason := reason, findings := 0, withdrawn := 0,
         integrity := if r.integrity.None? then fault else r.integrity)
  }

  method MarkVulnIntegrity(rows: array<Row>, i: nat, fault: Option<Fault>, prefix: string)
    requires i < rows.Length
    modifies rows
    ensures rows[i] == Marked(old(rows[i]), fault, prefix)
    ensures forall j :: 0 <= j < rows.Length && j != i ==> rows[j] == old(rows[j])
  {
    if fault.None? || fault.value.OtherFault? {
      return;
    }
    match fault.value {
      case IntegrityFault(text) =>
        rows[i] := rows[i].(vulnStatus := IntegrityFailed, vulnReason := prefix + text);
      case ConflictFault(text) =>
        rows[i] := rows[i].(vulnStatus := RecordsConflict, vulnReason := text);
    }
    rows[i] := rows[i].(findings := 0, withdrawn := 0);
    if rows[i].integrity.None? {
      rows[i] := rows[i].(integrity := fault);
    }
  }

  /** A module's own records, read again; a coordinate that does not parse is not
      read. */
  function Reread(r: Row, records: map<string, Fault>): Option<Fault> {
    if r.coordinate in records then Some(records[r.coordinate]) else None
  }

  function Remarked(r: Row, records: map<string, Fault>, prefix: string): Row {
    if r.vulnStatus.NotScanned? then Marked(r, Reread(r, records), prefix) else r
  }

  method MarkRefusedVulnRecords(rows: array<Row>, records: map<string, Fault>, prefix: string)
    modifies rows
    ensures forall i :: 0 <= i < rows.Length ==> rows[i] == Remarked(old(rows[i]), records, prefix)
  {
    for i := 0 to rows.Length
      invariant forall j :: 0 <= j < i ==> rows[j] == Remarked(old(rows[j]), records, prefix)
      invariant forall j :: i <= j < rows.Length ==> rows[j] == old(rows[j])
    {
      if !rows[i].vulnStatus.NotScanned? {
        continue;
      }
      MarkVulnIntegrity(rows, i, Reread(rows[i], records), prefix);
    }
  }

  /** Marking keeps every marked row's failure, keeps the first failure a row had,
      and leaves no finding on a row it marks. */
  lemma MarkingIsSound(r: Row, fault: Option<Fault>, prefix: string)
    requires Sound(r)
    ensures var m := Marked(r, fault, prefix);
            && Sound(m) && (r.integrity.Some? ==> m.integrity == r.integrity)
            && (Marks(fault) ==> IsMarked(m) && m.findings == m.withdrawn == 0)
            && (!Marks(fault) ==> m == r)
  {
  }

  /** A second pass over the rows finds nothing more to mark. */
  lemma RemarkingIsIdempotent(r: Row, records: map<string, Fault>, prefix: string)
    ensures Remarked(Remarked(r, records, prefix), records, prefix) == Remarked(r, records, prefix)
  {
  }

  /** What a mark says of a fault: an integrity failure under the text of the read that
      met it, a conflict in its own words; and what it leaves of the row. */
  lemma MarkSays(r: Row, text: string, prefix: string)
    ensures var m := Marked(r, Some(IntegrityFault(text)), prefix);
            m.vulnStatus == IntegrityFailed && m.vulnReason == prefix + text
            && (r.integrity.None? ==> m.integrity == Some(IntegrityFault(text)))
    ensures var m := Marked(r, Some(ConflictFault(text)), prefix);
            m.vulnStatus == RecordsConflict && m.vulnReason == text
            && (r.integrity.None? ==> m.integrity == Some(ConflictFault(text)))
    ensures Marked(r, Some(OtherFault(text)), prefix) == r && Marked(r, None, prefix) == r
    ensures forall fault ::
              var m := Marked(r, fault, prefix);
              m.coordinate == r.coordinate && m.policyBlocking == r.policyBlocking && m.policyUnevaluated == r.policyUnevaluated
  {
  }

  /** A row is marked by a second read exactly when it was not scanned and that read, of
      its own coordinate, meets an integrity failure or a conflict. */
  lemma RemarkSays(r: Row, records: map<string, Fault>, prefix: string)
    requires !IsMarked(r)
    ensures IsMarked(Remarked(r, records, prefix)) <==>
              r.vulnStatus == NotScanned && r.coordinate in records && !records[r.coordinate].OtherFault?
    ensures !IsMarked(Remarked(r, records, prefix)) ==> Remarked(r, records, prefix) == r
  {
  }

  // ---- the scan leg ----

  datatype ErrorCode = Partial | Integrity | Uncoded | OtherCode(code: int)

  datatype ScanError = ScanError(code: ErrorCode, text: string)

  datatype ScanFacts = ScanFacts(runID: string, total: int, unscannable: int, failed: int)

  /** How the scan leg ended: a failure, or no failure and perhaps a partial run. */
  datatype Derivation = Derivation(scanErr: Option<ScanError>, scanPartial: bool)

  function Analysed(facts: ScanFacts): int {
    facts.total - facts.unscannable - facts.failed
  }

  /** A partial run that names itself and analysed something is no failure. */
  function AuditScanOutcome(facts: ScanFacts, err: Option<ScanError>, nothing: string): (d: Derivation)
    ensures d.scanErr.Some? || d.scanPartial <==> err.Some?
    ensures FailedOnIntegrity(d) <==> err.Some? && err.value.code.Integrity?
  {
    if err.None? || !err.value.code.Partial? || facts.runID == "" then Derivation(err, false)
    else if Analysed(facts) == 0 then Derivation(Some(ScanError(Uncoded, nothing)), false)
    else Derivation(None, true)
  }

  predicate FailedOnIntegrity(d: Derivation) {
    d.scanErr.Some? && d.scanErr.value.code.Integrity?
  }

  /** How the scan leg's error is read. It is a partial run only with a run to name and
      a module analysed; where none was, the failure says so in place of it; any other
      stands as it is. */
  lemma ScanLegSays(facts: ScanFacts, err: Option<ScanError>, nothing: string)
    ensures var d := AuditScanOutcome(facts, err, nothing);
            var partial := err.Some? && err.value.code.Partial? && facts.runID != "";
            var analysed := facts.total != facts.unscannable + facts.failed;
            && (d.scanPartial <==> partial && analysed)
            && (partial && analysed ==> d.scanErr.None?)
            && (partial && !analysed ==> d.scanErr == Some(ScanError(Uncoded, nothing)))
            && (!partial ==> d.scanErr == err)
  {
  }

  // ---- the exit ----

  datatype Exit =
    | Clean
    | IntegrityExit(failures: seq<string>)
    | PolicyExit(unevaluated: seq<string>, blocked: seq<string>)
    | PartialExit(failed: bool)

  function Code(e: Exit): int {
    match e
    case Clean => 0
    case IntegrityExit(_) => 10
    case PolicyExit(_, _) => 5
    case PartialExit(_) => 1
  }

  function FailureTexts(rows: seq<Row>): seq<string> {
    Map(Filter(rows, HoldsFailure), FailureText)
  }

  predicate HoldsFailure(r: Row) {
    r.integrity.Some?
  }

  function FailureText(r: Row): string {
    if r.integrity.Some? then r.integrity.value.text else ""
  }

  predicate Blocking(r: Row) {
    r.policyBlocking
  }

  predicate Unevaluated(r: Row) {
    r.policyBlocking && r.policyUnevaluated
  }

  predicate Blocked(r: Row) {
    r.policyBlocking && !r.policyUnevaluated
  }

  function CoordinateOf(r: Row): string {
    r.coordinate
  }

  function Coordinates(rows: seq<Row>, p: Row -> bool): seq<string> {
    Map(Filter(rows, p), CoordinateOf)
  }

  method AuditBlockingErr(rows: seq<Row>) returns (e: Option<Exit>)
    ensures e == if Coordinates(rows, Unevaluated) == [] && Coordinates(rows, Blocked) == [] then None
                 else Some(PolicyExit(Coordinates(rows, Unevaluated), Coordinates(rows, Blocked)))
  {
    var blocked, unevaluated: seq<string> := [], [];
    for i := 0 to |rows|
      invariant blocked == Coordinates(rows[..i], Blocked)
      invariant unevaluated == Coordinates(rows[..i], Unevaluated)
    {
      ListedStep(rows, i, Blocked, CoordinateOf);
      ListedStep(rows, i, Unevaluated, CoordinateOf);
      if !rows[i].policyBlocking {
        continue;
      }
      if rows[i].policyUnevaluated {
        unevaluated := unevaluated + [rows[i].coordinate];
        continue;
      }
      blocked := blocked + [rows[i].coordinate];
    }
    assert rows[..|rows|] == rows;
    if |unevaluated| == 0 && |blocked| == 0 {
      return None;
    }
    e := Some(PolicyExit(unevaluated, blocked));
  }

  /** One more row adds its line to a list, or does not. */
  lemma ListedStep(rows: seq<Row>, i: nat, p: Row -> bool, f: Row -> string)
    requires i < |rows|
    ensures Map(Filter(rows[..i + 1], p), f) == Map(Filter(rows[..i], p), f) + if p(rows[i]) then [f(rows[i])] else []
  {
    FilterStep(rows, i, p);
    var kept := Filter(rows[..i], p);
    assert (kept + [rows[i]])[..|kept|] == kept;
  }

  function AuditScanExit(d: Derivation): Exit {
    if d.scanErr.Some? then PartialExit(true)
    else if d.scanPartial then PartialExit(false)
    else Clean
  }

  predicate AnyMarked(rows: seq<Row>) {
    exists i :: 0 <= i < |rows| && IsMarked(rows[i])
  }

  method AuditOutcomeErr(rows: seq<Row>, d: Derivation) returns (e: Exit)
    ensures e == Outcome(rows, d)
  {
    var failed: seq<string> := [];
    var vulnMarked := false;
    for i := 0 to |rows|
      invariant failed == FailureTexts(rows[..i])
      invariant vulnMarked <==> AnyMarked(rows[..i])
    {
      ListedStep(rows, i, HoldsFailure, FailureText);
      AnyMarkedStep(rows, i);
      if rows[i].integrity.Some? {
        failed := failed + [rows[i].integrity.value.text];
      }
      vulnMarked := vulnMarked || rows[i].vulnStatus.IntegrityFailed? || rows[i].vulnStatus.RecordsConflict?;
    }
    assert rows[..|rows|] == rows;
    if !vulnMarked && FailedOnIntegrity(d) {
      failed := failed + [d.scanErr.value.text];
    }
    if |failed| == 0 {
      var blocking := AuditBlockingErr(rows);
      if blocking.Some? {
        return blocking.value;
      }
      return AuditScanExit(d);
    }
    e := IntegrityExit(failed);
  }

  lemma AnyMarkedStep(rows: seq<Row>, i: nat)
    requires i < |rows|
    ensures AnyMarked(rows[..i + 1]) <==> AnyMarked(rows[..i]) || IsMarked(rows[i])
  {
    if AnyMarked(rows[..i]) {
      var j :| 0 <= j < i && IsMarked(rows[..i][j]);
      assert rows[..i + 1][j] == rows[..i][j];
    }
    if IsMarked(rows[i]) {
      assert rows[..i + 1][i] == rows[i];
    }
    forall j | 0 <= j < i
      ensures rows[..i + 1][j] == rows[..i][j]
    {
    }
  }

  /** Every failure a row carries, the scan's own where no row is marked with it. */
  function Failures(rows: seq<Row>, d: Derivation): seq<string> {
    FailureTexts(rows) + if !AnyMarked(rows) && FailedOnIntegrity(d) then [d.scanErr.value.text] else []
  }

  function Outcome(rows: seq<Row>, d: Derivation): Exit {
    var unevaluated, blocked := Coordinates(rows, Unevaluated), Coordinates(rows, Blocked);
    if Failures(rows, d) != [] then IntegrityExit(Failures(rows, d))
    else if unevaluated != [] || blocked != [] then PolicyExit(unevaluated, blocked)
    else AuditScanExit(d)
  }

  // ---- what the exit means ----

  predicate AnyFailure(rows: seq<Row>) {
    exists r :: r in rows && r.integrity.Some?
  }

  predicate AnyBlocking(rows: seq<Row>) {
    exists r :: r in rows && r.policyBlocking
  }

  /** 10 when a row or the scan failed on integrity, else 5 when a row blocks, else
      1 when the scan failed or was partial, else 0. */
  function Precedence(rows: seq<Row>, d: Derivation): int {
    if AnyFailure(rows) || FailedOnIntegrity(d) then 10
    else if AnyBlocking(rows) then 5
    else if d.scanErr.Some? || d.scanPartial then 1
    else 0
  }

  lemma ListedNone(rows: seq<Row>, p: Row -> bool, f: Row -> string)
    ensures Map(Filter(rows, p), f) == [] <==> forall r :: r in rows ==> !p(r)
  {
    var kept := Filter(rows, p);
    if kept != [] {
      InFilter(rows, p, kept[0]);
    }
    forall r | r in rows && p(r)
      ensures kept != []
    {
      InFilter(rows, p, r);
    }
  }

  lemma FailuresListed(rows: seq<Row>)
    ensures AnyFailure(rows) <==> FailureTexts(rows) != []
  {
    ListedNone(rows, HoldsFailure, FailureText);
  }

  lemma BlockingListed(rows: seq<Row>)
    ensures AnyBlocking(rows) <==> Coordinates(rows, Unevaluated) != [] || Coordinates(rows, Blocked) != []
  {
    ListedNone(rows, Unevaluated, CoordinateOf);
    ListedNone(rows, Blocked, CoordinateOf);
    if r :| r in rows && r.policyBlocking {
      assert Unevaluated(r) || Blocked(r);
    }
  }

  lemma {:induction false} ListedIff(rows: seq<Row>, p: Row -> bool, f: Row -> string, text: string)
    ensures text in Map(Filter(rows, p), f) <==> exists r :: r in rows && p(r) && f(r) == text
  {
    if rows != [] {
      var n := |rows| - 1;
      ListedIff(rows[..n], p, f, text);
      assert rows[..n + 1] == rows && rows == rows[..n] + [rows[n]];
      ListedStep(rows, n, p, f);
    }
  }

  /** What the exit carries: with 10 the text of every failure a row holds, and the
      scan's own where no row is marked; with 5 the coordinates of the rows that block,
      those unevaluated apart from those blocked. */
  lemma ExitSays(rows: seq<Row>, d: Derivation, text: string)
    ensures var e := Outcome(rows, d);
            && (e.IntegrityExit? ==>
                  (text in e.failures <==>
                     || (exists r :: r in rows && r.integrity.Some? && r.integrity.value.text == text)
                     || (!AnyMarked(rows) && FailedOnIntegrity(d) && d.scanErr.value.text == text)))
            && (e.PolicyExit? ==>
                  && (text in e.unevaluated <==> exists r :: r in rows && r.policyBlocking && r.policyUnevaluated && r.coordinate == text)
                  && (text in e.blocked <==> exists r :: r in rows && r.policyBlocking && !r.policyUnevaluated && r.coordinate == text))
            && (e.PartialExit? ==> (e.failed <==> d.scanErr.Some?))
  {
    ListedIff(rows, HoldsFailure, FailureText, text);
    ListedIff(rows, Unevaluated, CoordinateOf, text);
    ListedIff(rows, Blocked, CoordinateOf, text);
  }

  /** Each list is in the order of the rows: the list over more rows is the list over
      the first of them, and then over the rest. */
  lemma ListsInRowOrder(rows: seq<Row>, more: seq<Row>, p: Row -> bool)
    ensures Coordinates(rows + more, p) == Coordinates(rows, p) + Coordinates(more, p)
    ensures FailureTexts(rows + more) == FailureTexts(rows) + FailureTexts(more)
  {
    FilterConcat(rows, more, p);
    MapConcat(Filter(rows, p), Filter(more, p), CoordinateOf);
    FilterConcat(rows, more, HoldsFailure);
    MapConcat(Filter(rows, HoldsFailure), Filter(more, HoldsFailure), FailureText);
  }

  /** The exit is the precedence, except where a marked row suppresses the scan's
      own failure and no row carries one. */
  lemma PrecedenceIff(rows: seq<Row>, d: Derivation)
    ensures Code(Outcome(rows, d)) == Precedence(rows, d) <==>
              !(FailedOnIntegrity(d) && AnyMarked(rows) && !AnyFailure(rows))
  {
    FailuresListed(rows);
    BlockingListed(rows);
    assert Failures(rows, d) == [] <==> !AnyFailure(rows) && !(FailedOnIntegrity(d) && !AnyMarked(rows));
  }

  /** Rows as the run builds them: a row that starts unmarked, its own read's fault
      marked, and the refused records marked over it. */
  ghost predicate Built(r: Row, prefix: string) {
    exists start, own :: !IsMarked(start) && r == Marked(start, own, prefix)
  }

  lemma BuiltIsSound(r: Row, records: map<string, Fault>, prefix: string)
    requires Built(r, prefix)
    ensures Sound(r) && Sound(Remarked(r, records, prefix))
  {
    var start, own :| !IsMarked(start) && r == Marked(start, own, prefix);
    MarkingIsSound(start, own, prefix);
    MarkingIsSound(r, Reread(r, records), prefix);
  }

  /** The exit of a whole run: the rows are built, the refused records are marked in
      place when the scan failed on integrity, and the outcome is taken. */
  method AuditExitCode(rows: array<Row>, records: map<string, Fault>, d: Derivation, prefix: string) returns (code: int)
    requires forall i :: 0 <= i < rows.Length ==> Built(rows[i], prefix)
    modifies rows
    ensures code == Precedence(rows[..], d)
    ensures code == Precedence(old(rows[..]), d)
    ensures forall i :: 0 <= i < rows.Length ==>
              rows[i] == if FailedOnIntegrity(d) then Remarked(old(rows[i]), records, prefix) else old(rows[i])
  {
    ghost var before := rows[..];
    forall i | 0 <= i < rows.Length
      ensures Sound(rows[i]) && Sound(Remarked(rows[i], records, prefix))
    {
      BuiltIsSound(rows[i], records, prefix);
    }
    if FailedOnIntegrity(d) {
      MarkRefusedVulnRecords(rows, records, prefix);
    }
    var e := AuditOutcomeErr(rows[..], d);
    SoundRowsAnswer(rows[..], d);
    code := Code(e);
    assert !FailedOnIntegrity(d) ==> rows[..] == before;
  }

  /** Over sound rows the suppression never costs the failure. */
  lemma SoundRowsAnswer(rows: seq<Row>, d: Derivation)
    requires forall r :: r in rows ==> Sound(r)
    ensures Code(Outcome(rows, d)) == Precedence(rows, d)
  {
    PrecedenceIff(rows, d);
    if AnyMarked(rows) {
      var i :| 0 <= i < |rows| && IsMarked(rows[i]);
      assert Sound(rows[i]);
    }
  }

  lemma NamedStep(rows: seq<Row>, p: Row -> bool)
    requires rows != []
    ensures var last := rows[|rows| - 1];
            multiset(Coordinates(rows, p)) == multiset(Coordinates(rows[..|rows| - 1], p))
              + if p(last) then multiset{last.coordinate} else multiset{}
  {
    var n := |rows| - 1;
    assert rows[..n + 1] == rows;
    ListedStep(rows, n, p, CoordinateOf);
  }

  /** Every blocking row is named once, as unevaluated or as blocked. */
  lemma {:induction false} EveryBlockingRowIsNamed(rows: seq<Row>)
    ensures multiset(Coordinates(rows, Unevaluated)) + multiset(Coordinates(rows, Blocked)) ==
              multiset(Coordinates(rows, Blocking))
  {
    if rows != [] {
      var n := |rows| - 1;
      EveryBlockingRowIsNamed(rows[..n]);
      NamedStep(rows, Unevaluated);
      NamedStep(rows, Blocked);
      NamedStep(rows, Blocking);
    }
  }
}
