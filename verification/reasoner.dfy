/**
 * The conflict detector: pairwise scans of the schedule for surgeons,
 * theatres and patients booked into two overlapping surgeries, and for
 * surgeries whose surgeon is not authorised for the theatre they require.
 */
module Reasoner {
  import opened Wrappers
  import opened Store
  import opened TimeOfDay
  import opened Manager

  // ------------------------------------------------------------- records

  datatype ConflictKind = SurgeonDoubleBooking | TheatreDoubleBooking | PatientDoubleBooking

  datatype Level = Medium | High | Critical

  /** Two surgeries of one resource (surgeon, theatre or patient) at overlapping times. */
  datatype Conflict = Conflict(kind: ConflictKind, resource: Name, surgery1: Name, surgery2: Name)
  {
    function Label(): string {
      match kind
      case SurgeonDoubleBooking => "Surgeon Double-Booking"
      case TheatreDoubleBooking => "Theatre Double-Booking"
      case PatientDoubleBooking => "Patient Double-Booking"
    }

    function Severity(): Level {
      if kind == PatientDoubleBooking then Critical else High
    }

    function Description(): string {
      match kind
      case SurgeonDoubleBooking => resource + " is scheduled for two surgeries at overlapping times"
      case TheatreDoubleBooking => resource + " is double-booked"
      case PatientDoubleBooking => "Patient " + resource + " is scheduled for two surgeries at overlapping times"
    }
  }

  /** A surgery whose surgeon is authorised only for other theatres than the one it requires. */
  datatype Mismatch = Mismatch(surgeon: Name, surgery: Name, surgeonTheatres: string, requiredTheatre: Name)
  {
    function Label(): string { "Specialization Mismatch" }

    function Severity(): Level { Medium }

    function Description(): string {
      surgeon + " is authorized for [" + surgeonTheatres + "] but surgery requires " + requiredTheatre
    }
  }

  /** What a full detection run reports. */
  datatype Report = Report(
    surgeonConflicts: seq<Conflict>,
    theatreConflicts: seq<Conflict>,
    patientConflicts: seq<Conflict>,
    specializationMismatches: seq<Mismatch>)

  /** Names joined with ", ", as a readable list. */
  function JoinNames(names: seq<Name>): string {
    if names == [] then ""
    else if |names| == 1 then names[0]
    else names[0] + ", " + JoinNames(names[1..])
  }

  // ------------------------------------------------------ surgery overlap

  /**
   * Whether two surgeries are booked at overlapping times: both need a
   * timeslot; an explicit overlap edge from the first slot to the second
   * decides at once; otherwise the first start and end of both slots are
   * compared as clock times.
   */
  function SurgeriesOverlap(o: Ontology, surgery1: Individual, surgery2: Individual): (r: bool)
    ensures r ==> surgery1.hasTimeslot != [] && surgery2.hasTimeslot != []
    ensures (surgery1.hasTimeslot != [] && surgery2.hasTimeslot != []
             && surgery2.hasTimeslot[0] in Deref(o, surgery1.hasTimeslot[0]).hasTemporalOverlap) ==> r
    // without an edge, a slot missing a start or an end never overlaps
    ensures (surgery1.hasTimeslot != [] && surgery2.hasTimeslot != []
             && surgery2.hasTimeslot[0] !in Deref(o, surgery1.hasTimeslot[0]).hasTemporalOverlap
             && (Deref(o, surgery1.hasTimeslot[0]).startTime == [] || Deref(o, surgery1.hasTimeslot[0]).endTime == []
                 || Deref(o, surgery2.hasTimeslot[0]).startTime == [] || Deref(o, surgery2.hasTimeslot[0]).endTime == [])) ==> !r
    // without an edge, two complete slots overlap exactly when their clock times do
    ensures (surgery1.hasTimeslot != [] && surgery2.hasTimeslot != []
             && surgery2.hasTimeslot[0] !in Deref(o, surgery1.hasTimeslot[0]).hasTemporalOverlap
             && Deref(o, surgery1.hasTimeslot[0]).startTime != [] && Deref(o, surgery1.hasTimeslot[0]).endTime != []
             && Deref(o, surgery2.hasTimeslot[0]).startTime != [] && Deref(o, surgery2.hasTimeslot[0]).endTime != []) ==>
            r == TimesOverlap(Deref(o, surgery1.hasTimeslot[0]).startTime[0], Deref(o, surgery1.hasTimeslot[0]).endTime[0],
                              Deref(o, surgery2.hasTimeslot[0]).startTime[0], Deref(o, surgery2.hasTimeslot[0]).endTime[0])
  {
    if surgery1.hasTimeslot == [] || surgery2.hasTimeslot == [] then false
    else
      var ts1 := Deref(o, surgery1.hasTimeslot[0]);
      var ts2 := Deref(o, surgery2.hasTimeslot[0]);
      if ts2.name in ts1.hasTemporalOverlap then true
      else if ts1.startTime != [] && ts1.endTime != [] && ts2.startTime != [] && ts2.endTime != [] then
        TimesOverlap(ts1.startTime[0], ts1.endTime[0], ts2.startTime[0], ts2.endTime[0])
      else false
  }

  // ---------------------------------------------------------- pair scans

  /** `SurgeriesOverlap` over `o`, as the test the pair scans take. */
  function OverlapTest(o: Ontology): (Individual, Individual) -> bool {
    (surgery1, surgery2) => SurgeriesOverlap(o, surgery1, surgery2)
  }

  /** Conflicts between `ss[i]` and each of `ss[i+1..j]`, in order. */
  function RowConflicts(overlaps: (Individual, Individual) -> bool, kind: ConflictKind, resource: Name, ss: Ontology, i: nat, j: nat): seq<Conflict>
    requires i < j <= |ss|
    decreases j
  {
    if j == i + 1 then []
    else
      RowConflicts(overlaps, kind, resource, ss, i, j - 1)
      + (if overlaps(ss[i], ss[j - 1]) then [Conflict(kind, resource, ss[i].name, ss[j - 1].name)] else [])
  }

  /** Conflicts between every pair `ss[i]`, `ss[k]` with `i < n` and `i < k`, in scan order. */
  function PairConflicts(overlaps: (Individual, Individual) -> bool, kind: ConflictKind, resource: Name, ss: Ontology, n: nat): seq<Conflict>
    requires n <= |ss|
    decreases n
  {
    if n == 0 then []
    else PairConflicts(overlaps, kind, resource, ss, n - 1) + RowConflicts(overlaps, kind, resource, ss, n - 1, |ss|)
  }

  /** The positions `(i, q)`, `i < q < j`, whose surgeries overlap: the pairs row `i` has to report. */
  function RowPairs(overlaps: (Individual, Individual) -> bool, ss: Ontology, i: nat, j: nat): set<(nat, nat)>
    requires i < j <= |ss|
  {
    set q: nat | i < q < j && overlaps(ss[i], ss[q]) :: (i, q)
  }

  /** The positions `(i, q)`, `i < q` and `i < n`, whose surgeries overlap: the pairs the first `n` rows have to report. */
  function OverlappingPairs(overlaps: (Individual, Individual) -> bool, ss: Ontology, n: nat): set<(nat, nat)>
    requires n <= |ss|
  {
    set i: nat, q: nat | i < n && i < q < |ss| && overlaps(ss[i], ss[q]) :: (i, q)
  }

  /** The class whose members a scan covers when no name is given. */
  function TargetClass(kind: ConflictKind): OwlClass {
    match kind
    case SurgeonDoubleBooking => Surgeon
    case TheatreDoubleBooking => Theatre
    case PatientDoubleBooking => Patient
  }

  /** The one individual a name finds, or every member of the scanned class when the name is empty. */
  function Targets(o: Ontology, kind: ConflictKind, filter: string): Ontology {
    if filter != "" then
      match SearchOne(o, filter)
      case None => []
      case Some(x) => [x]
    else Instances(o, TargetClass(kind))
  }

  /** The individuals a list of names leads to, in order. */
  function Resolve(o: Ontology, names: seq<Name>): (r: Ontology)
    ensures |r| == |names|
    ensures forall k | 0 <= k < |names| :: r[k] == Deref(o, names[k])
  {
    if names == [] then [] else [Deref(o, names[0])] + Resolve(o, names[1..])
  }

  /** The surgeries whose first required theatre is `theatre`, in order. */
  function InTheatre(surgeries: Ontology, theatre: Name): (r: Ontology)
    ensures forall x :: x in r <==> x in surgeries && x.requiresTheatreType != [] && x.requiresTheatreType[0] == theatre
  {
    if surgeries == [] then []
    else
      var x := surgeries[0];
      (if x.requiresTheatreType != [] && x.requiresTheatreType[0] == theatre then [x] else [])
      + InTheatre(surgeries[1..], theatre)
  }

  /** The surgeries a scan compares for one target. */
  function SurgeriesOf(o: Ontology, kind: ConflictKind, target: Individual): Ontology {
    match kind
    case SurgeonDoubleBooking => Resolve(o, target.performsOperation)
    case TheatreDoubleBooking => InTheatre(Instances(o, Surgery), target.name)
    case PatientDoubleBooking => Resolve(o, target.undergoesSurgery)
  }

  function TargetConflicts(o: Ontology, kind: ConflictKind, target: Individual): seq<Conflict> {
    var ss := SurgeriesOf(o, kind, target);
    PairConflicts(OverlapTest(o), kind, target.name, ss, |ss|)
  }

  /** The conflicts of each target in turn. */
  function Conflicts(o: Ontology, kind: ConflictKind, targets: Ontology): seq<Conflict>
    decreases |targets|
  {
    if targets == [] then []
    else Conflicts(o, kind, targets[..|targets| - 1]) + TargetConflicts(o, kind, targets[|targets| - 1])
  }

  /** The number of overlapping surgery pairs, summed over the targets. */
  function OverlapCount(o: Ontology, kind: ConflictKind, targets: Ontology): nat
    decreases |targets|
  {
    if targets == [] then 0
    else
      var ss := SurgeriesOf(o, kind, targets[|targets| - 1]);
      OverlapCount(o, kind, targets[..|targets| - 1]) + |OverlappingPairs(OverlapTest(o), ss, |ss|)|
  }

  /** What one of the three double-booking scans reports. */
  function ConflictsOf(o: Ontology, kind: ConflictKind, filter: string): seq<Conflict> {
    Conflicts(o, kind, Targets(o, kind, filter))
  }

  // --------------------------------------------------- specialization scan

  /** The mismatch a surgery shows, if any. */
  function MismatchOf(o: Ontology, surgery: Individual): Option<Mismatch> {
    if surgery.performsOperation == [] || surgery.requiresTheatreType == [] then None
    else
      var surgeon := Deref(o, surgery.performsOperation[0]);
      var required := surgery.requiresTheatreType[0];
      if surgeon.worksInTheatre != [] && required !in surgeon.worksInTheatre then
        Some(Mismatch(surgeon.name, surgery.name, JoinNames(surgeon.worksInTheatre), required))
      else None
  }

  /** The mismatches of each surgery in turn. */
  function Mismatches(o: Ontology, surgeries: Ontology): seq<Mismatch>
    decreases |surgeries|
  {
    if surgeries == [] then []
    else
      var rest := Mismatches(o, surgeries[..|surgeries| - 1]);
      match MismatchOf(o, surgeries[|surgeries| - 1])
      case None => rest
      case Some(m) => rest + [m]
  }

  function ReportOf(o: Ontology): Report {
    Report(
      ConflictsOf(o, SurgeonDoubleBooking, ""),
      ConflictsOf(o, TheatreDoubleBooking, ""),
      ConflictsOf(o, PatientDoubleBooking, ""),
      Mismatches(o, Instances(o, Surgery)))
  }

  // ------------------------------------------------------------ detector

  class ConflictDetector {
    /** The manager whose store the scans read. */
    const manager: OntologyManager

    constructor (manager: OntologyManager)
      ensures this.manager == manager
    {
      this.manager := manager;
    }

    /** Double bookings of the named surgeon, or of every surgeon when the name is empty. */
    method CheckSurgeonConflicts(surgeonName: string) returns (conflicts: seq<Conflict>)
      ensures conflicts == ConflictsOf(manager.onto, SurgeonDoubleBooking, surgeonName)
    {
      conflicts := CheckConflicts(SurgeonDoubleBooking, surgeonName);
    }

    /** Double bookings of the named theatre, or of every theatre when the name is empty. */
    method CheckTheatreConflicts(theatreName: string) returns (conflicts: seq<Conflict>)
      ensures conflicts == ConflictsOf(manager.onto, TheatreDoubleBooking, theatreName)
    {
      conflicts := CheckConflicts(TheatreDoubleBooking, theatreName);
    }

    /** Double bookings of the named patient, or of every patient when the name is empty. */
    method CheckPatientConflicts(patientName: string) returns (conflicts: seq<Conflict>)
      ensures conflicts == ConflictsOf(manager.onto, PatientDoubleBooking, patientName)
    {
      conflicts := CheckConflicts(PatientDoubleBooking, patientName);
    }

    /** One double-booking scan: each target's surgeries, compared pair by pair. */
    method CheckConflicts(kind: ConflictKind, filter: string) returns (conflicts: seq<Conflict>)
      ensures conflicts == ConflictsOf(manager.onto, kind, filter)
    {
      var o := manager.onto;
      var targets: Ontology;
      if filter != "" {
        var found := SearchOne(o, filter);
        targets := if found.Some? then [found.value] else [];
      } else {
        targets := manager.GetAll(TargetClass(kind));
      }
      assert targets == Targets(o, kind, filter);
      conflicts := ScanTargets(kind, targets);
    }

    /** Each target in turn, its conflicts appended in target order. */
    method ScanTargets(kind: ConflictKind, targets: Ontology) returns (conflicts: seq<Conflict>)
      ensures conflicts == Conflicts(manager.onto, kind, targets)
    {
      var o := manager.onto;
      conflicts := [];
      var t := 0;
      while t < |targets|
        invariant 0 <= t <= |targets|
        invariant conflicts == Conflicts(o, kind, targets[..t])
      {
        var target := targets[t];
        var found := ComparePairs(kind, target.name, SurgeriesOf(o, kind, target));
        assert found == TargetConflicts(o, kind, target);
        ConflictsStep(o, kind, targets, t);
        conflicts := conflicts + found;
        t := t + 1;
      }
      assert targets[..t] == targets;
    }

    /** Compare every pair `i < j` of `surgeries` once, in order. */
    method ComparePairs(kind: ConflictKind, resource: Name, surgeries: Ontology) returns (conflicts: seq<Conflict>)
      ensures conflicts == PairConflicts(OverlapTest(manager.onto), kind, resource, surgeries, |surgeries|)
    {
      ghost var test := OverlapTest(manager.onto);
      conflicts := [];
      var i := 0;
      while i < |surgeries|
        invariant 0 <= i <= |surgeries|
        invariant conflicts == PairConflicts(test, kind, resource, surgeries, i)
      {
        conflicts := CompareRow(kind, resource, surgeries, i, conflicts);
        assert conflicts == PairConflicts(test, kind, resource, surgeries, i + 1);
        i := i + 1;
      }
    }

    /** The inner loop: compare `surgeries[i]` with each later surgery, appending to `conflicts`. */
    method CompareRow(kind: ConflictKind, resource: Name, surgeries: Ontology, i: nat, done: seq<Conflict>)
      returns (conflicts: seq<Conflict>)
      requires i < |surgeries|
      ensures conflicts == done + RowConflicts(OverlapTest(manager.onto), kind, resource, surgeries, i, |surgeries|)
    {
      var o := manager.onto;
      conflicts := done;
      var j := i + 1;
      while j < |surgeries|
        invariant i + 1 <= j <= |surgeries|
        invariant conflicts == done + RowConflicts(OverlapTest(o), kind, resource, surgeries, i, j)
      {
        RowStep(OverlapTest(o), kind, resource, surgeries, i, j);
        if SurgeriesOverlap(o, surgeries[i], surgeries[j]) {
          conflicts := conflicts + [Conflict(kind, resource, surgeries[i].name, surgeries[j].name)];
        }
        j := j + 1;
      }
    }

    /** Surgeries whose surgeon is authorised for other theatres only. */
    method CheckSpecializationMismatches() returns (mismatches: seq<Mismatch>)
      ensures mismatches == Mismatches(manager.onto, Instances(manager.onto, Surgery))
    {
      var o := manager.onto;
      var surgeries := manager.GetAll(Surgery);
      mismatches := [];
      var k := 0;
      while k < |surgeries|
        invariant 0 <= k <= |surgeries|
        invariant mismatches == Mismatches(o, surgeries[..k])
      {
        var surgery := surgeries[k];
        MismatchStep(o, surgeries, k);
        if surgery.performsOperation != [] && surgery.requiresTheatreType != [] {
          var surgeon := Deref(o, surgery.performsOperation[0]);
          var required := surgery.requiresTheatreType[0];
          if surgeon.worksInTheatre != [] && required !in surgeon.worksInTheatre {
            mismatches := mismatches + [Mismatch(surgeon.name, surgery.name, JoinNames(surgeon.worksInTheatre), required)];
          }
        }
        k := k + 1;
      }
      assert surgeries[..k] == surgeries;
    }

    /** All four scans over the whole store. */
    method DetectAllConflicts() returns (report: Report)
      ensures report == ReportOf(manager.onto)
    {
      var surgeonConflicts := CheckSurgeonConflicts("");
      var theatreConflicts := CheckTheatreConflicts("");
      var patientConflicts := CheckPatientConflicts("");
      var mismatches := CheckSpecializationMismatches();
      report := Report(surgeonConflicts, theatreConflicts, patientConflicts, mismatches);
    }
  }

  // -------------------------------------------------------------- lemmas

  /** One more comparison of a row. */
  lemma RowStep(overlaps: (Individual, Individual) -> bool, kind: ConflictKind, resource: Name, ss: Ontology, i: nat, j: nat)
    requires i < j < |ss|
    ensures RowConflicts(overlaps, kind, resource, ss, i, j + 1)
         == RowConflicts(overlaps, kind, resource, ss, i, j)
            + (if overlaps(ss[i], ss[j]) then [Conflict(kind, resource, ss[i].name, ss[j].name)] else [])
  {
  }

  /** One more surgery of the specialization scan. */
  lemma MismatchStep(o: Ontology, surgeries: Ontology, k: nat)
    requires k < |surgeries|
    ensures Mismatches(o, surgeries[..k + 1])
         == Mismatches(o, surgeries[..k]) + (match MismatchOf(o, surgeries[k]) case None => [] case Some(m) => [m])
  {
    assert surgeries[..k + 1][..k] == surgeries[..k];
  }

  /** A row holds at most one conflict per later surgery. */
  lemma {:induction false} RowConflictsBound(overlaps: (Individual, Individual) -> bool, kind: ConflictKind, resource: Name, ss: Ontology, i: nat, j: nat)
    requires i < j <= |ss|
    ensures |RowConflicts(overlaps, kind, resource, ss, i, j)| <= j - i - 1
    decreases j
  {
    if j > i + 1 {
      RowConflictsBound(overlaps, kind, resource, ss, i, j - 1);
    }
  }

  /** A conflict of row `i` pairs surgery `i` with a later surgery that overlaps it. */
  lemma {:induction false} RowConflictsSound(overlaps: (Individual, Individual) -> bool, kind: ConflictKind, resource: Name, ss: Ontology, i: nat, j: nat,
                                             c: Conflict)
    requires i < j <= |ss| && c in RowConflicts(overlaps, kind, resource, ss, i, j)
    ensures exists k :: i < k < j && overlaps(ss[i], ss[k]) && c == Conflict(kind, resource, ss[i].name, ss[k].name)
    decreases j
  {
    RowStep(overlaps, kind, resource, ss, i, j - 1);
    if c in RowConflicts(overlaps, kind, resource, ss, i, j - 1) {
      RowConflictsSound(overlaps, kind, resource, ss, i, j - 1, c);
    } else {
      assert overlaps(ss[i], ss[j - 1]) && c == Conflict(kind, resource, ss[i].name, ss[j - 1].name);
    }
  }

  /** A later surgery `k` that overlaps surgery `i` has its conflict in row `i`. */
  lemma {:induction false} RowConflictsComplete(overlaps: (Individual, Individual) -> bool, kind: ConflictKind, resource: Name, ss: Ontology, i: nat, j: nat,
                                                k: nat)
    requires i < k < j <= |ss| && overlaps(ss[i], ss[k])
    ensures Conflict(kind, resource, ss[i].name, ss[k].name) in RowConflicts(overlaps, kind, resource, ss, i, j)
    decreases j
  {
    RowStep(overlaps, kind, resource, ss, i, j - 1);
    if k < j - 1 {
      RowConflictsComplete(overlaps, kind, resource, ss, i, j - 1, k);
    }
  }

  /** A conflict of the pair scan over the first `n` rows names an overlapping pair `i < k` with `i < n`. */
  lemma {:induction false} PairConflictsSound(overlaps: (Individual, Individual) -> bool, kind: ConflictKind, resource: Name, ss: Ontology, n: nat, c: Conflict)
    requires n <= |ss| && c in PairConflicts(overlaps, kind, resource, ss, n)
    ensures exists i, k :: 0 <= i < n && i < k < |ss| && overlaps(ss[i], ss[k])
                           && c == Conflict(kind, resource, ss[i].name, ss[k].name)
    decreases n
  {
    if c in PairConflicts(overlaps, kind, resource, ss, n - 1) {
      PairConflictsSound(overlaps, kind, resource, ss, n - 1, c);
    } else {
      RowConflictsSound(overlaps, kind, resource, ss, n - 1, |ss|, c);
    }
  }

  /** An overlapping pair `i < k` with `i < n` is reported by the pair scan over the first `n` rows. */
  lemma {:induction false} PairConflictsComplete(overlaps: (Individual, Individual) -> bool, kind: ConflictKind, resource: Name, ss: Ontology, n: nat,
                                                 i: nat, k: nat)
    requires i < n <= |ss| && i < k < |ss| && overlaps(ss[i], ss[k])
    ensures Conflict(kind, resource, ss[i].name, ss[k].name) in PairConflicts(overlaps, kind, resource, ss, n)
    decreases n
  {
    if i < n - 1 {
      PairConflictsComplete(overlaps, kind, resource, ss, n - 1, i, k);
    } else {
      RowConflictsComplete(overlaps, kind, resource, ss, i, |ss|, k);
    }
  }

  /** The pair scan over the first `n` rows holds at most one conflict per compared pair. */
  lemma {:induction false} PairConflictsBound(overlaps: (Individual, Individual) -> bool, kind: ConflictKind, resource: Name, ss: Ontology, n: nat)
    requires n <= |ss|
    ensures 2 * |PairConflicts(overlaps, kind, resource, ss, n)| <= n * (2 * |ss| - n - 1)
    decreases n
  {
    if n > 0 {
      PairConflictsBound(overlaps, kind, resource, ss, n - 1);
      RowConflictsBound(overlaps, kind, resource, ss, n - 1, |ss|);
      assert (n - 1) * (2 * |ss| - n) + 2 * (|ss| - n) == n * (2 * |ss| - n - 1);
    }
  }

  /** Row `i` holds exactly one conflict per later surgery that overlaps surgery `i`. */
  lemma {:induction false} RowConflictsCount(overlaps: (Individual, Individual) -> bool, kind: ConflictKind, resource: Name, ss: Ontology, i: nat, j: nat)
    requires i < j <= |ss|
    ensures |RowConflicts(overlaps, kind, resource, ss, i, j)| == |RowPairs(overlaps, ss, i, j)|
    decreases j
  {
    if j == i + 1 {
      assert RowPairs(overlaps, ss, i, j) == {};
    } else {
      RowConflictsCount(overlaps, kind, resource, ss, i, j - 1);
      var before := RowPairs(overlaps, ss, i, j - 1);
      var last: set<(nat, nat)> := if overlaps(ss[i], ss[j - 1]) then {(i, j - 1)} else {};
      assert RowPairs(overlaps, ss, i, j) == before + last;
      assert (i, j - 1) !in before;
      assert |before + last| == |before| + |last|;
    }
  }

  /** The pairs of the first `n` rows are those of the first `n - 1` rows and, apart from them, those of row `n - 1`. */
  lemma OverlappingPairsStep(overlaps: (Individual, Individual) -> bool, ss: Ontology, n: nat)
    requires 0 < n <= |ss|
    ensures OverlappingPairs(overlaps, ss, n) == OverlappingPairs(overlaps, ss, n - 1) + RowPairs(overlaps, ss, n - 1, |ss|)
    ensures OverlappingPairs(overlaps, ss, n - 1) * RowPairs(overlaps, ss, n - 1, |ss|) == {}
  {
    var before := OverlappingPairs(overlaps, ss, n - 1);
    var row := RowPairs(overlaps, ss, n - 1, |ss|);
    var all := OverlappingPairs(overlaps, ss, n);
    forall p | p in all
      ensures p in before + row
    {
      var (i, q) := p;
      if i < n - 1 {
        assert p in before;
      } else {
        assert p in row;
      }
    }
    forall p | p in before + row
      ensures p in all
    {
      var (i, q) := p;
      assert i < n && i < q < |ss| && overlaps(ss[i], ss[q]);
    }
    forall p | p in before
      ensures p !in row
    {
    }
  }

  /** The first `n` rows hold exactly one conflict per overlapping pair `i < k` with `i < n`. */
  lemma {:induction false} PairConflictsCount(overlaps: (Individual, Individual) -> bool, kind: ConflictKind, resource: Name, ss: Ontology, n: nat)
    requires n <= |ss|
    ensures |PairConflicts(overlaps, kind, resource, ss, n)| == |OverlappingPairs(overlaps, ss, n)|
    decreases n
  {
    if n == 0 {
      assert OverlappingPairs(overlaps, ss, n) == {};
    } else {
      PairConflictsCount(overlaps, kind, resource, ss, n - 1);
      RowConflictsCount(overlaps, kind, resource, ss, n - 1, |ss|);
      assert |PairConflicts(overlaps, kind, resource, ss, n)|
          == |PairConflicts(overlaps, kind, resource, ss, n - 1)| + |RowConflicts(overlaps, kind, resource, ss, n - 1, |ss|)|;
      assert |OverlappingPairs(overlaps, ss, n)|
          == |OverlappingPairs(overlaps, ss, n - 1)| + |RowPairs(overlaps, ss, n - 1, |ss|)| by {
        OverlappingPairsStep(overlaps, ss, n);
      }
    }
  }

  /**
   * Comparing each unordered pair once: `n` surgeries yield at most n(n-1)/2
   * conflicts, and zero or one surgery yields none.
   */
  lemma AtMostOnePerPair(overlaps: (Individual, Individual) -> bool, kind: ConflictKind, resource: Name, ss: Ontology)
    ensures 2 * |PairConflicts(overlaps, kind, resource, ss, |ss|)| <= |ss| * (|ss| - 1)
    ensures |ss| <= 1 ==> PairConflicts(overlaps, kind, resource, ss, |ss|) == []
    // one conflict for each overlapping pair, and no more
    ensures |PairConflicts(overlaps, kind, resource, ss, |ss|)| == |OverlappingPairs(overlaps, ss, |ss|)|
  {
    PairConflictsBound(overlaps, kind, resource, ss, |ss|);
    PairConflictsCount(overlaps, kind, resource, ss, |ss|);
  }

  /** Scanning one more target appends that target's conflicts. */
  lemma ConflictsStep(o: Ontology, kind: ConflictKind, targets: Ontology, t: nat)
    requires t < |targets|
    ensures Conflicts(o, kind, targets[..t + 1]) == Conflicts(o, kind, targets[..t]) + TargetConflicts(o, kind, targets[t])
  {
    assert targets[..t + 1][..t] == targets[..t];
  }

  /** A scan holds one conflict per overlapping pair of each target's surgeries, and no more. */
  lemma {:induction false} ConflictsCount(o: Ontology, kind: ConflictKind, targets: Ontology)
    ensures |Conflicts(o, kind, targets)| == OverlapCount(o, kind, targets)
    decreases |targets|
  {
    if targets != [] {
      var t := targets[|targets| - 1];
      var ss := SurgeriesOf(o, kind, t);
      ConflictsCount(o, kind, targets[..|targets| - 1]);
      PairConflictsCount(OverlapTest(o), kind, t.name, ss, |ss|);
    }
  }

  /** What a double-booking scan reports: one conflict per overlapping pair of each visited target's surgeries. */
  lemma ConflictsOfCount(o: Ontology, kind: ConflictKind, filter: string)
    ensures |ConflictsOf(o, kind, filter)| == OverlapCount(o, kind, Targets(o, kind, filter))
  {
    ConflictsCount(o, kind, Targets(o, kind, filter));
  }

  /** A scan reports exactly the conflicts of its targets. */
  lemma {:induction false} ConflictsExact(o: Ontology, kind: ConflictKind, targets: Ontology)
    ensures forall c :: c in Conflicts(o, kind, targets) <==>
      exists t :: t in targets && c in TargetConflicts(o, kind, t)
    decreases |targets|
  {
    if targets != [] {
      var n := |targets|;
      ConflictsExact(o, kind, targets[..n - 1]);
      assert targets == targets[..n - 1] + [targets[n - 1]];
    }
  }

  /** Whether `surgery` is one of the resource's bookings, as the scan of that kind gathers them. */
  predicate Involves(o: Ontology, kind: ConflictKind, resource: Name, surgery: Name) {
    match kind
    case SurgeonDoubleBooking => surgery in Deref(o, resource).performsOperation
    case TheatreDoubleBooking =>
      var x := Deref(o, surgery);
      Surgery in x.classes && x.requiresTheatreType != [] && x.requiresTheatreType[0] == resource
    case PatientDoubleBooking => surgery in Deref(o, resource).undergoesSurgery
  }

  /** The targets of a scan: the individual the name finds, or the members of the scanned class. */
  lemma TargetsMeaning(o: Ontology, kind: ConflictKind, filter: string)
    requires UniqueNames(o)
    ensures forall t | t in Targets(o, kind, filter) ::
      Deref(o, t.name) == t
      && (filter != "" ==> t.name == filter)
      && (filter == "" ==> TargetClass(kind) in t.classes)
  {
    forall t | t in Targets(o, kind, filter)
      ensures Deref(o, t.name) == t
    {
      if filter == "" {
        DerefUnique(o, t);
      }
    }
  }

  /** Each surgery a scan compares for a target is one of that target's bookings. */
  lemma SurgeryMeaning(o: Ontology, kind: ConflictKind, target: Individual, x: Individual)
    requires UniqueNames(o) && Deref(o, target.name) == target && x in SurgeriesOf(o, kind, target)
    ensures Deref(o, x.name) == x && Involves(o, kind, target.name, x.name)
  {
    match kind
    case SurgeonDoubleBooking =>
      var ss := Resolve(o, target.performsOperation);
      var k :| 0 <= k < |ss| && ss[k] == x;
      assert x.name == target.performsOperation[k];
    case TheatreDoubleBooking =>
      DerefUnique(o, x);
    case PatientDoubleBooking =>
      var ss := Resolve(o, target.undergoesSurgery);
      var k :| 0 <= k < |ss| && ss[k] == x;
      assert x.name == target.undergoesSurgery[k];
  }

  /**
   * Every reported conflict names two bookings of its resource, both with a
   * timeslot, whose surgeries overlap; a named scan reports only that name,
   * and a full scan only members of the scanned class.
   */
  lemma ConflictsSound(o: Ontology, kind: ConflictKind, filter: string)
    requires UniqueNames(o)
    ensures forall c | c in ConflictsOf(o, kind, filter) ::
      && c.kind == kind
      && Involves(o, kind, c.resource, c.surgery1)
      && Involves(o, kind, c.resource, c.surgery2)
      && Deref(o, c.surgery1).hasTimeslot != [] && Deref(o, c.surgery2).hasTimeslot != []
      && SurgeriesOverlap(o, Deref(o, c.surgery1), Deref(o, c.surgery2))
      && (filter != "" ==> c.resource == filter)
      && (filter == "" ==> TargetClass(kind) in Deref(o, c.resource).classes)
  {
    var targets := Targets(o, kind, filter);
    ConflictsExact(o, kind, targets);
    TargetsMeaning(o, kind, filter);
    forall c | c in ConflictsOf(o, kind, filter)
      ensures c.kind == kind
      ensures Involves(o, kind, c.resource, c.surgery1) && Involves(o, kind, c.resource, c.surgery2)
      ensures SurgeriesOverlap(o, Deref(o, c.surgery1), Deref(o, c.surgery2))
      ensures filter != "" ==> c.resource == filter
      ensures filter == "" ==> TargetClass(kind) in Deref(o, c.resource).classes
    {
      var t :| t in targets && c in TargetConflicts(o, kind, t);
      TargetConflictSound(o, kind, t, c);
    }
  }

  /** A conflict found for one target names two of its bookings, both with a timeslot, that overlap. */
  lemma TargetConflictSound(o: Ontology, kind: ConflictKind, t: Individual, c: Conflict)
    requires UniqueNames(o) && Deref(o, t.name) == t && c in TargetConflicts(o, kind, t)
    ensures c.kind == kind && c.resource == t.name
    ensures Involves(o, kind, c.resource, c.surgery1) && Involves(o, kind, c.resource, c.surgery2)
    ensures Deref(o, c.surgery1).hasTimeslot != [] && Deref(o, c.surgery2).hasTimeslot != []
    ensures SurgeriesOverlap(o, Deref(o, c.surgery1), Deref(o, c.surgery2))
  {
    var ss := SurgeriesOf(o, kind, t);
    PairConflictsSound(OverlapTest(o), kind, t.name, ss, |ss|, c);
    var i, k :| 0 <= i < |ss| && i < k < |ss| && OverlapTest(o)(ss[i], ss[k])
                && c == Conflict(kind, t.name, ss[i].name, ss[k].name);
    SurgeryMeaning(o, kind, t, ss[i]);
    SurgeryMeaning(o, kind, t, ss[k]);
  }

  /** Every overlapping pair `i < k` of a target's surgeries is reported. */
  lemma ConflictsComplete(o: Ontology, kind: ConflictKind, filter: string)
    ensures forall t, i, k | t in Targets(o, kind, filter) && 0 <= i < k < |SurgeriesOf(o, kind, t)|
                             && SurgeriesOverlap(o, SurgeriesOf(o, kind, t)[i], SurgeriesOf(o, kind, t)[k]) ::
      Conflict(kind, t.name, SurgeriesOf(o, kind, t)[i].name, SurgeriesOf(o, kind, t)[k].name) in ConflictsOf(o, kind, filter)
  {
    var targets := Targets(o, kind, filter);
    ConflictsExact(o, kind, targets);
    forall t, i, k | t in targets && 0 <= i < k < |SurgeriesOf(o, kind, t)|
                     && SurgeriesOverlap(o, SurgeriesOf(o, kind, t)[i], SurgeriesOf(o, kind, t)[k])
      ensures Conflict(kind, t.name, SurgeriesOf(o, kind, t)[i].name, SurgeriesOf(o, kind, t)[k].name) in ConflictsOf(o, kind, filter)
    {
      var ss := SurgeriesOf(o, kind, t);
      PairConflictsComplete(OverlapTest(o), kind, t.name, ss, |ss|, i, k);
      assert Conflict(kind, t.name, ss[i].name, ss[k].name) in TargetConflicts(o, kind, t);
    }
  }

  /** With overlap edges recorded both ways, the order of the two surgeries does not matter. */
  lemma SurgeriesOverlapSymmetric(o: Ontology, surgery1: Individual, surgery2: Individual)
    requires surgery1.hasTimeslot != [] && surgery2.hasTimeslot != [] ==>
      (surgery2.hasTimeslot[0] in Deref(o, surgery1.hasTimeslot[0]).hasTemporalOverlap
       <==> surgery1.hasTimeslot[0] in Deref(o, surgery2.hasTimeslot[0]).hasTemporalOverlap)
    ensures SurgeriesOverlap(o, surgery1, surgery2) == SurgeriesOverlap(o, surgery2, surgery1)
  {
    if surgery1.hasTimeslot != [] && surgery2.hasTimeslot != [] {
      var ts1 := Deref(o, surgery1.hasTimeslot[0]);
      var ts2 := Deref(o, surgery2.hasTimeslot[0]);
      if ts1.startTime != [] && ts1.endTime != [] && ts2.startTime != [] && ts2.endTime != [] {
        OverlapSymmetric(ts1.startTime[0], ts1.endTime[0], ts2.startTime[0], ts2.endTime[0]);
      }
    }
  }

  /**
   * The overlap edge is read in one direction only: a slot that lists a
   * second one as overlapping, with no times recorded, makes a surgery in the
   * first overlap one in the second but not the other way round.
   */
  lemma OverlapEdgeIsOneWay()
    ensures var slot1 := Blank("Slot_A").(classes := {TimeSlot}, hasTemporalOverlap := ["Slot_B"]);
            var slot2 := Blank("Slot_B").(classes := {TimeSlot});
            var a := Blank("Surgery_A").(classes := {Surgery}, hasTimeslot := ["Slot_A"]);
            var b := Blank("Surgery_B").(classes := {Surgery}, hasTimeslot := ["Slot_B"]);
            var o := [slot1, slot2, a, b];
            SurgeriesOverlap(o, a, b) && !SurgeriesOverlap(o, b, a)
  {
    var slot1 := Blank("Slot_A").(classes := {TimeSlot}, hasTemporalOverlap := ["Slot_B"]);
    var slot2 := Blank("Slot_B").(classes := {TimeSlot});
    var a := Blank("Surgery_A").(classes := {Surgery}, hasTimeslot := ["Slot_A"]);
    var b := Blank("Surgery_B").(classes := {Surgery}, hasTimeslot := ["Slot_B"]);
    var o := [slot1, slot2, a, b];
    FindIs(o, "Slot_A", 0);
    FindIs(o, "Slot_B", 1);
  }

  /** A scan's conflicts are all of its kind. */
  lemma ConflictsKind(o: Ontology, kind: ConflictKind, filter: string)
    ensures forall c | c in ConflictsOf(o, kind, filter) :: c.kind == kind
  {
    var targets := Targets(o, kind, filter);
    ConflictsExact(o, kind, targets);
    forall c | c in ConflictsOf(o, kind, filter)
      ensures c.kind == kind
    {
      var t :| t in targets && c in TargetConflicts(o, kind, t);
      var ss := SurgeriesOf(o, kind, t);
      PairConflictsSound(OverlapTest(o), kind, t.name, ss, |ss|, c);
    }
  }

  /** Surgeon and theatre double bookings are HIGH, patient ones CRITICAL, mismatches MEDIUM. */
  lemma ReportSeverities(o: Ontology)
    ensures forall c | c in ReportOf(o).surgeonConflicts :: c.Severity() == High && c.Label() == "Surgeon Double-Booking"
    ensures forall c | c in ReportOf(o).theatreConflicts :: c.Severity() == High && c.Label() == "Theatre Double-Booking"
    ensures forall c | c in ReportOf(o).patientConflicts :: c.Severity() == Critical && c.Label() == "Patient Double-Booking"
    ensures forall m | m in ReportOf(o).specializationMismatches :: m.Severity() == Medium
  {
    ConflictsKind(o, SurgeonDoubleBooking, "");
    ConflictsKind(o, TheatreDoubleBooking, "");
    ConflictsKind(o, PatientDoubleBooking, "");
  }

  // ------------------------------------------------------------ mismatches

  /** The mismatch scan reports exactly the mismatches of the surgeries it walks. */
  lemma {:induction false} MismatchesExact(o: Ontology, surgeries: Ontology)
    ensures forall m :: m in Mismatches(o, surgeries) <==> exists x :: x in surgeries && MismatchOf(o, x) == Some(m)
    decreases |surgeries|
  {
    if surgeries != [] {
      var n := |surgeries|;
      MismatchesExact(o, surgeries[..n - 1]);
      assert surgeries == surgeries[..n - 1] + [surgeries[n - 1]];
    }
  }

  /**
   * Every reported mismatch is a surgery whose first surgeon is authorised for
   * at least one theatre, none of them the surgery's first required theatre;
   * so a surgeon with no authorised theatre is never reported.
   */
  lemma MismatchesSound(o: Ontology)
    requires UniqueNames(o)
    ensures forall m | m in Mismatches(o, Instances(o, Surgery)) ::
      var x := Deref(o, m.surgery);
      var surgeon := Deref(o, m.surgeon);
      && Surgery in x.classes
      && x.performsOperation != [] && x.performsOperation[0] == m.surgeon
      && x.requiresTheatreType != [] && x.requiresTheatreType[0] == m.requiredTheatre
      && surgeon.worksInTheatre != [] && m.requiredTheatre !in surgeon.worksInTheatre
      && m.surgeonTheatres == JoinNames(surgeon.worksInTheatre)
  {
    MismatchesExact(o, Instances(o, Surgery));
    forall m | m in Mismatches(o, Instances(o, Surgery))
      ensures Deref(o, m.surgery) in o && Surgery in Deref(o, m.surgery).classes
      ensures MismatchOf(o, Deref(o, m.surgery)) == Some(m)
    {
      var x :| x in Instances(o, Surgery) && MismatchOf(o, x) == Some(m);
      DerefUnique(o, x);
    }
  }

  /** Every surgery whose surgeon is authorised for other theatres only is reported. */
  lemma MismatchesComplete(o: Ontology)
    ensures forall x | x in o && Surgery in x.classes && x.performsOperation != [] && x.requiresTheatreType != []
                       && Deref(o, x.performsOperation[0]).worksInTheatre != []
                       && x.requiresTheatreType[0] !in Deref(o, x.performsOperation[0]).worksInTheatre ::
      Mismatch(x.performsOperation[0], x.name, JoinNames(Deref(o, x.performsOperation[0]).worksInTheatre),
               x.requiresTheatreType[0]) in Mismatches(o, Instances(o, Surgery))
  {
    MismatchesExact(o, Instances(o, Surgery));
  }
}
