/** Which scan run a served vulnerability record is shown beside: the run of the
    anchored walk it was selected from, or the run credited with producing it. */
module RunContext {
  import opened Wrappers
  import opened Seqs
  import opened Coordinates

  /** An advisory database, by source and version; when it was retrieved is no part
      of what it is. */
  datatype Snapshot = Snapshot(source: string, version: string)

  datatype Record = Record(walkId: string, snapshot: Snapshot, hash: string)

  /** A run and, for each module it covers, the hash of the record it scanned; a
      run that named none holds the empty hash. */
  datatype Run = Run(id: string, snapshot: Snapshot, results: map<Coord, string>)

  predicate Covers(run: Run, c: Coord) {
    c in run.results
  }

  function NamedBy(run: Run, c: Coord): string {
    if c in run.results then run.results[c] else ""
  }

  // ---- the records a run scanned ----

  predicate Scanned(run: Run, c: Coord, rec: Record) {
    rec.snapshot == run.snapshot && (NamedBy(run, c) == "" || rec.hash == NamedBy(run, c))
  }

  /** The run covers the module, and this record is what it scanned there. */
  predicate CameOutOf(rec: Record, run: Run, c: Coord) {
    Covers(run, c) && Scanned(run, c, rec)
  }

  method RecordsTheRunScanned(recs: seq<Record>, run: Run, c: Coord) returns (out: seq<Record>)
    ensures out == Filter(recs, rec => Scanned(run, c, rec))
  {
    var scanned := rec => Scanned(run, c, rec);
    var want := if c in run.results then run.results[c] else "";
    out := [];
    for i := 0 to |recs|
      invariant out == Filter(recs[..i], scanned)
    {
      FilterStep(recs, i, scanned);
      if recs[i].snapshot.source != run.snapshot.source || recs[i].snapshot.version != run.snapshot.version {
        continue;
      }
      if want == "" || recs[i].hash == want {
        out := out + [recs[i]];
      }
    }
    FilterAll(recs, scanned);
    FilterCongruent(recs, scanned, rec => Scanned(run, c, rec));
  }

  /** A run scanned a record on its own database: the one it named, by hash, or any
      there where it named none. */
  lemma ScannedIff(run: Run, c: Coord, rec: Record)
    ensures rec.snapshot.source != run.snapshot.source || rec.snapshot.version != run.snapshot.version ==> !Scanned(run, c, rec)
    ensures rec.snapshot == run.snapshot && (c !in run.results || run.results[c] == "") ==> Scanned(run, c, rec)
    ensures rec.snapshot == run.snapshot && c in run.results && run.results[c] != "" ==>
              (Scanned(run, c, rec) <==> rec.hash == run.results[c])
  {
  }

  // ---- anchored to a walk ----

  /** What choosing among a module's records answers. */
  datatype Selection = Chosen(rec: Record) | NoneServable | SelectionFailed

  type Selector = seq<Record> -> Selection

  /** A choice is one of the records offered. */
  ghost predicate Chooses(select: Selector) {
    forall recs: seq<Record> :: select(recs).Chosen? ==> select(recs).rec in recs
  }

  datatype Section = Failed | NotRun | Served(rec: Record, run: Option<Run>)

  /** The run covers the module and its records there offer something, or fail to. */
  predicate Offers(run: Run, recs: seq<Record>, c: Coord, select: Selector) {
    Covers(run, c) && !select(Filter(recs, rec => Scanned(run, c, rec))).NoneServable?
  }

  /** The newest run that does. */
  predicate IsFirstOffer(runs: seq<Run>, recs: seq<Record>, c: Coord, select: Selector, i: nat)
    requires i < |runs|
  {
    Offers(runs[i], recs, c, select) && forall j :: 0 <= j < i ==> !Offers(runs[j], recs, c, select)
  }

  /** What a choice is shown as, beside a run or none. */
  function Shown(chosen: Selection, run: Option<Run>): Section {
    match chosen
    case SelectionFailed => Failed
    case NoneServable => NotRun
    case Chosen(rec) => Served(rec, run)
  }

  /** The walk's runs, newest first, and then the whole ledger. */
  method AnchoredVulnerabilities(runs: seq<Run>, recs: seq<Record>, c: Coord, select: Selector) returns (section: Section)
    requires Chooses(select)
    ensures section.Served? ==> section.rec in recs
    ensures section.Served? && section.run.Some? ==> section.run.value in runs && CameOutOf(section.rec, section.run.value, c)
    ensures section.NotRun? ==> select(recs).NoneServable?
    ensures section.NotRun? || (section.Served? && section.run.None?) ==>
              forall run :: run in runs && Covers(run, c) ==> select(Filter(recs, rec => Scanned(run, c, rec))).NoneServable?
    ensures forall i :: 0 <= i < |runs| && IsFirstOffer(runs, recs, c, select, i) ==>
              section == Shown(select(Filter(recs, rec => Scanned(runs[i], c, rec))), Some(runs[i]))
    ensures (forall run :: run in runs ==> !Offers(run, recs, c, select)) ==> section == Shown(select(recs), None)
  {
    for i := 0 to |runs|
      invariant forall j :: 0 <= j < i ==> !Offers(runs[j], recs, c, select)
    {
      var run := runs[i];
      if c !in run.results {
        continue;
      }
      var scanned := RecordsTheRunScanned(recs, run, c);
      var chosen := select(scanned);
      assert Offers(run, recs, c, select) ==> run in runs && IsFirstOffer(runs, recs, c, select, i);
      if chosen.SelectionFailed? {
        return Failed;
      }
      if chosen.NoneServable? {
        continue;
      }
      InFilter(recs, rec => Scanned(run, c, rec), chosen.rec);
      return Served(chosen.rec, Some(run));
    }
    var chosen := select(recs);
    match chosen {
      case SelectionFailed => section := Failed;
      case Chosen(rec) => section := Served(rec, None);
      case NoneServable => section := NotRun;
    }
  }

  // ---- not anchored: the record first ----

  /** The newest run that covers the module and judged it against the snapshot. */
  function FirstJudging(runs: seq<Run>, c: Coord, snapshot: Snapshot): (r: Option<Run>)
    ensures r.Some? ==> r.value in runs && Covers(r.value, c) && r.value.snapshot == snapshot
    ensures r.None? <==> forall run :: run in runs && Covers(run, c) ==> run.snapshot != snapshot
  {
    if runs == [] then None
    else
      assert runs == [runs[0]] + runs[1..];
      if Covers(runs[0], c) && runs[0].snapshot == snapshot then Some(runs[0])
      else FirstJudging(runs[1..], c, snapshot)
  }

  function Credited(runs: map<string, seq<Run>>, window: seq<string>, rec: Record, c: Coord): Option<Run> {
    if rec.walkId == "" || rec.walkId !in window || rec.walkId !in runs then None
    else FirstJudging(runs[rec.walkId], c, rec.snapshot)
  }

  method InWindow(window: seq<string>, walkId: string) returns (r: bool)
    ensures r <==> walkId in window
  {
    for i := 0 to |window|
      invariant walkId !in window[..i]
    {
      if window[i] == walkId {
        return true;
      }
    }
    r := false;
  }

  method RunThatProduced(runs: map<string, seq<Run>>, window: seq<string>, rec: Record, c: Coord) returns (r: Option<Run>)
    ensures r == Credited(runs, window, rec, c)
  {
    if rec.walkId == "" {
      return None;
    }
    var inWindow := InWindow(window, rec.walkId);
    if !inWindow || rec.walkId !in runs {
      return None;
    }
    var own := runs[rec.walkId];
    for i := 0 to |own|
      invariant FirstJudging(own[i..], c, rec.snapshot) == FirstJudging(own, c, rec.snapshot)
    {
      assert own[i..][1..] == own[i + 1..];
      if c !in own[i].results {
        continue;
      }
      if own[i].snapshot.source != rec.snapshot.source || own[i].snapshot.version != rec.snapshot.version {
        continue;
      }
      return Some(own[i]);
    }
    r := None;
  }

  /** A run that covers the module on the record's snapshot, whatever it named. */
  predicate Judges(run: Run, rec: Record, c: Coord) {
    Covers(run, c) && run.snapshot == rec.snapshot
  }

  /** The record came out of the i-th run, and no newer one judges the module on its
      snapshot. */
  predicate NewestToJudge(own: seq<Run>, i: nat, rec: Record, c: Coord)
    requires i < |own|
  {
    CameOutOf(rec, own[i], c) && forall j :: 0 <= j < i ==> !Judges(own[j], rec, c)
  }

  lemma {:induction false} FirstJudgingIsDueIff(own: seq<Run>, rec: Record, c: Coord)
    ensures var run := FirstJudging(own, c, rec.snapshot);
            (run.Some? && CameOutOf(rec, run.value, c)) <==> exists i :: 0 <= i < |own| && NewestToJudge(own, i, rec, c)
  {
    if own != [] {
      var rest := own[1..];
      FirstJudgingIsDueIff(rest, rec, c);
      if Judges(own[0], rec, c) {
        assert CameOutOf(rec, own[0], c) <==> NewestToJudge(own, 0, rec, c);
      } else {
        forall i | 0 <= i < |rest| && NewestToJudge(rest, i, rec, c)
          ensures NewestToJudge(own, i + 1, rec, c)
        {
          forall j | 0 <= j < i + 1
            ensures !Judges(own[j], rec, c)
          {
            assert j > 0 ==> own[j] == rest[j - 1];
          }
        }
        forall i | 0 <= i < |own| && NewestToJudge(own, i, rec, c)
          ensures i > 0 && NewestToJudge(rest, i - 1, rec, c)
        {
          forall j | 0 <= j < i - 1
            ensures !Judges(rest[j], rec, c)
          {
            assert rest[j] == own[j + 1];
          }
        }
      }
    }
  }

  /** A record is credited to a run that scanned it exactly when its walk is loaded
      and the run it came out of is the newest there to judge the module on its
      snapshot: the snapshot is compared, the hash is not. */
  lemma CreditIsDueIff(runs: map<string, seq<Run>>, window: seq<string>, rec: Record, c: Coord)
    ensures var run := Credited(runs, window, rec, c);
            (run.Some? && CameOutOf(rec, run.value, c)) <==>
              && rec.walkId != "" && rec.walkId in window && rec.walkId in runs
              && exists i :: 0 <= i < |runs[rec.walkId]| && NewestToJudge(runs[rec.walkId], i, rec, c)
  {
    if rec.walkId in runs {
      FirstJudgingIsDueIff(runs[rec.walkId], rec, c);
    }
  }

  /** A walk scanned twice on one database: the older run scanned the record, and
      the newer, which scanned another, is credited with it. */
  lemma NewerRunTakesTheCredit(rec: Record, c: Coord, older: Run, newer: Run)
    requires rec.walkId != "" && CameOutOf(rec, older, c)
    requires newer.snapshot == older.snapshot && Covers(newer, c)
    requires newer.results[c] != "" && newer.results[c] != rec.hash
    ensures Credited(map[rec.walkId := [newer, older]], [rec.walkId], rec, c) == Some(newer)
    ensures !CameOutOf(rec, newer, c)
  {
  }

  /** A record some run of its walk scanned is credited to some run, whenever the
      walk is in the window. */
  lemma ScannedIsCredited(runs: map<string, seq<Run>>, window: seq<string>, rec: Record, c: Coord, run: Run)
    requires rec.walkId != "" && rec.walkId in window && rec.walkId in runs
    requires run in runs[rec.walkId] && CameOutOf(rec, run, c)
    ensures Credited(runs, window, rec, c).Some?
  {
  }
}
